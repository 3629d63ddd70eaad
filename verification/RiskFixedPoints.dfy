/** When the engine changes nothing, and inputs that mark the edge of its guarantees. */
module RiskFixedPoints {
  import opened Arithmetic
  import opened Ordering
  import opened Sums
  import opened Policies
  import opened RiskEngine
  import opened RiskLimits
  import opened RepairedTargets
  import opened RiskTheorems

  // ----- a repair logs nothing just when it changes nothing

  lemma {:induction false} LoggedEmpty(ks: seq<string>, touched: string -> bool, code: ReasonCode)
    ensures Logged(ks, touched, code) == [] <==> forall s :: s in ks ==> !touched(s)
  {
    if ks != [] {
      var front, s := ks[..|ks| - 1], ks[|ks| - 1];
      LoggedEmpty(front, touched, code);
      assert forall k :: k in ks <==> k in front || k == s by { assert ks == front + [s]; }
    }
  }

  lemma LoggedOverEmpty(w: Weights, touched: string -> bool, code: ReasonCode)
    ensures LoggedOver(w, touched, code) == [] <==> forall s :: s in w ==> !touched(s)
    ensures LoggedOver(w, touched, code) == [] ==> Keeping(w, touched) == w
  {
    LoggedEmpty(SortedKeys(w.Keys), touched, code);
  }

  lemma {:induction false} SectorLogEmpty(sectors: seq<string>, exposures: map<string, real>, policy: InvestmentPolicy)
    ensures SectorLog(sectors, exposures, policy) == [] <==> forall e :: e in sectors ==> !SectorOver(Get(exposures, e), policy)
  {
    if sectors != [] {
      var front, s := sectors[..|sectors| - 1], sectors[|sectors| - 1];
      SectorLogEmpty(front, exposures, policy);
      assert forall k :: k in sectors <==> k in front || k == s by { assert sectors == front + [s]; }
    }
  }

  /** No name is blocked. */
  ghost predicate NothingBlocked(w: Weights, ctx: RiskContext) {
    forall s :: s in w ==> !IsBlocked(s, ctx)
  }

  lemma NameRepairsSilent(w: Weights, ctx: RiskContext, policy: InvestmentPolicy)
    ensures NameRepairs(w, ctx, policy).1 == [] ==> NameRepairs(w, ctx, policy).0 == w
    ensures NameRepairs(w, ctx, policy).1 == [] <==> NamesOk(w, ctx, policy, 0.0) && NothingBlocked(w, ctx)
  {
    hide SortedKeys, Logged;
    var listed := Keeping(w, Uninvestable(ctx));
    var free := Keeping(listed, Blocked(ctx));
    var long := if policy.longOnly then Keeping(free, Short(free)) else free;
    LoggedOverEmpty(w, Uninvestable(ctx), UniverseWhitelist);
    LoggedOverEmpty(listed, Blocked(ctx), WashSaleWindow);
    LoggedOverEmpty(free, Short(free), NoShorting);
    LoggedOverEmpty(long, Above(long, policy.maxPositionWeight), MaxPositionWeight);
    hide LoggedOver;
    if NamesOk(w, ctx, policy, 0.0) && NothingBlocked(w, ctx) {
      forall s | s in w
        ensures s in ctx.universe && !IsBlocked(s, ctx) && (policy.longOnly ==> 0.0 <= w[s]) && w[s] <= policy.maxPositionWeight
      {
        assert NameOk(s, w[s], ctx, policy, 0.0);
      }
      assert listed == w && free == w && long == w;
    }
  }

  lemma SectorScaledSilent(w: Weights, ctx: RiskContext, policy: InvestmentPolicy)
    ensures var exposures := SectorExposures(w, ctx.sectors);
      && (SectorLog(SortedKeys(exposures.Keys), exposures, policy) == [] ==> SectorScaled(w, ctx, policy) == w)
      && (policy.Constructible() ==>
            (SectorLog(SortedKeys(exposures.Keys), exposures, policy) == [] <==> SectorsOk(w, ctx, policy, 0.0)))
  {
    hide SectorExposure, SectorLog, SectorFactor, SectorOver;
    var exposures := SectorExposures(w, ctx.sectors);
    var sectors := SortedKeys(exposures.Keys);
    SectorLogEmpty(sectors, exposures, policy);
    ExposuresAreThose(w, ctx.sectors);
    forall s | s in w
      ensures var e := SectorExposure(w, ctx.sectors, SectorOf(s, ctx.sectors));
        && SectorOf(s, ctx.sectors) in sectors && Get(exposures, SectorOf(s, ctx.sectors)) == e
        && (!SectorOver(e, policy) ==> w[s] * SectorFactor(e, policy) == w[s])
        && (policy.Constructible() ==> (SectorOver(e, policy) <==> e > policy.maxSectorWeight))
    {
      NotOver(SectorExposure(w, ctx.sectors, SectorOf(s, ctx.sectors)), w[s], policy);
    }
    hide SectorExposures, SortedKeys;
    if SectorLog(sectors, exposures, policy) == [] { assert SectorScaled(w, ctx, policy) == w; }
  }

  lemma ExposuresAreThose(w: Weights, sectors: map<string, string>)
    ensures forall s :: s in w ==>
              SectorOf(s, sectors) in SectorExposures(w, sectors)
              && SectorExposures(w, sectors)[SectorOf(s, sectors)] == SectorExposure(w, sectors, SectorOf(s, sectors))
    ensures forall e :: e in SectorExposures(w, sectors) ==> exists s :: s in w && SectorOf(s, sectors) == e
  {
    hide SectorExposure;
  }

  lemma NotOver(exposure: real, x: real, policy: InvestmentPolicy)
    ensures !SectorOver(exposure, policy) ==> x * SectorFactor(exposure, policy) == x
    ensures policy.Constructible() ==> (SectorOver(exposure, policy) <==> exposure > policy.maxSectorWeight)
  {
  }

  lemma RatioActs(limit: real, measured: real)
    ensures Ratio(limit, measured) < 1.0 <==> measured > limit && measured > 0.0
  {
  }

  /** Some reason is logged exactly when there is something to scale. */
  lemma ReasonsExactly(w: Weights, ctx: RiskContext, policy: InvestmentPolicy, num: Numerics)
    requires 0.0 < Total(w)
    ensures UniformReasons(w, ctx, policy, num) == [] <==> UniformFactor(w, ctx, policy, num) >= 1.0
    ensures UniformFactor(w, ctx, policy, num) >= 1.0
            <==> (&& Total(w) <= policy.EffectiveExposureCeiling()
                  && (PortfolioBeta(w, ctx.betas) <= policy.maxPortfolioBeta || PortfolioBeta(w, ctx.betas) <= 0.0)
                  && (PortfolioVolatility(w, ctx.covariance, num) <= VolatilityCeiling(ctx, policy, num)
                      || PortfolioVolatility(w, ctx.covariance, num) <= 0.0))
  {
    hide Total, PortfolioBeta, PortfolioVolatility, VolatilityCeiling, Ratio;
    RatioActs(policy.EffectiveExposureCeiling(), Total(w));
    RatioActs(policy.maxPortfolioBeta, PortfolioBeta(w, ctx.betas));
    RatioActs(VolatilityCeiling(ctx, policy, num), PortfolioVolatility(w, ctx.covariance, num));
  }

  lemma UniformSilent(w: Weights, ctx: RiskContext, policy: InvestmentPolicy, num: Numerics)
    ensures UniformLog(w, ctx, policy, num) == [] ==> UniformlyScaled(w, ctx, policy, num) == w
    ensures policy.Constructible() && policy.NonNegativeCeilings() && !BreakerTripped(ctx, policy) ==>
              (UniformLog(w, ctx, policy, num) == [] <==> (0.0 < Total(w) ==> BookOk(w, ctx, policy, num, 0.0)))
  {
    hide Total, PortfolioBeta, PortfolioVolatility, UniformReasons, Ratio;
    if 0.0 < Total(w) {
      ReasonsExactly(w, ctx, policy, num);
      hide UniformFactor;
    }
  }

  /** A book the repairs leave alone: every name listed, unblocked and within its limits,
      every sector within its cap, and the book-level limits met if there is exposure to
      scale. */
  ghost predicate Settled(w: Weights, ctx: RiskContext, policy: InvestmentPolicy, num: Numerics) {
    && NamesOk(w, ctx, policy, 0.0) && NothingBlocked(w, ctx) && SectorsOk(w, ctx, policy, 0.0)
    && (0.0 < Total(w) ==> BookOk(w, ctx, policy, num, 0.0))
  }

  /** No repair is logged if and only if the breaker is quiet and the proposal, without its
      zeros, is settled; the target is then that proposal. */
  lemma SilentExactly(proposed: Weights, ctx: RiskContext, policy: InvestmentPolicy, num: Numerics)
    requires policy.Constructible() && policy.NonNegativeCeilings()
    ensures Target(proposed, ctx, policy, num).1 == []
            <==> !BreakerTripped(ctx, policy) && Settled(NonZero(proposed), ctx, policy, num)
    ensures Target(proposed, ctx, policy, num).1 == [] ==> Target(proposed, ctx, policy, num).0 == NonZero(proposed)
  {
    hide NameRepairs, SectorScaled, SectorLog, SortedKeys, UniformLog, UniformlyScaled, NamesOk;
    hide SectorsOk, BookOk, NonZero, MinimumVariance, SectorExposures, NothingBlocked, Total;
    var start := Start(proposed, ctx, policy, num);
    var named := NameRepairs(start, ctx, policy).0;
    NameRepairsSilent(start, ctx, policy);
    SectorScaledSilent(named, ctx, policy);
    UniformSilent(SectorScaled(named, ctx, policy), ctx, policy, num);
  }

  /** A silent repair changed nothing, for every policy there can be. */
  lemma SilenceIsUntouched(proposed: Weights, ctx: RiskContext, policy: InvestmentPolicy, num: Numerics)
    ensures Target(proposed, ctx, policy, num).1 == [] ==> Target(proposed, ctx, policy, num).0 == NonZero(proposed)
  {
    hide NameRepairs, SectorScaled, SectorLog, SortedKeys, UniformLog, UniformlyScaled, NonZero, MinimumVariance, SectorExposures;
    var start := Start(proposed, ctx, policy, num);
    var named := NameRepairs(start, ctx, policy).0;
    NameRepairsSilent(start, ctx, policy);
    SectorScaledSilent(named, ctx, policy);
    UniformSilent(SectorScaled(named, ctx, policy), ctx, policy, num);
  }

  /** APPROVED means untouched, whatever the policy allows. */
  lemma ApprovedIsUntouched(proposed: Weights, ctx: RiskContext, policy: InvestmentPolicy, num: Numerics)
    ensures var a := Evaluate(proposed, ctx, policy, num);
      a.decision == Approved ==> a.weights == NonZero(proposed) && a.repairs == []
  {
    hide Target, Turnover, Verify, Metrics, MaxDrift, Total, NonZero, Blend;
    SilenceIsUntouched(proposed, ctx, policy, num);
  }

  lemma NonZeroHasNoZeros(w: Weights)
    ensures forall s :: s in NonZero(w) ==> NonZero(w)[s] != 0.0
    ensures NonZero(NonZero(w)) == NonZero(w) && NonZero(w).Keys <= w.Keys
  {
  }

  /** Exactly which proposals are APPROVED: those already settled, within the book-level
      limits up to the tolerance, worth trading and affordable. */
  lemma ApprovedExactly(proposed: Weights, ctx: RiskContext, policy: InvestmentPolicy, num: Numerics)
    requires policy.Constructible() && policy.NonNegativeCeilings()
    ensures var p := NonZero(proposed);
      Evaluate(proposed, ctx, policy, num).decision == Approved
      <==> (!BreakerTripped(ctx, policy)
            && Settled(p, ctx, policy, num)
            && BookOk(p, ctx, policy, num, TOLERANCE)
            && SafetyFirstOk(p, ctx, policy, num)
            && !InsideCorridor(p, ctx, policy)
            && Turnover(ctx.currentWeights, p) <= policy.maxTurnover)
  {
    hide Target, Complies, Settled, BookOk, SafetyFirstOk, Turnover, Verify, Metrics, MaxDrift, Total, NonZero;
    var p := NonZero(proposed);
    SilentExactly(proposed, ctx, policy, num);
    SettledComplies(p, ctx, policy, num);
    VerifyExact(p, ctx, policy, num);
    TurnoverNonNegative(ctx.currentWeights, p);
  }

  lemma SettledComplies(p: Weights, ctx: RiskContext, policy: InvestmentPolicy, num: Numerics)
    requires policy.Constructible()
    ensures Settled(p, ctx, policy, num) ==> (Complies(p, ctx, policy, num, TOLERANCE) <==> BookOk(p, ctx, policy, num, TOLERANCE))
  {
    hide BookOk, SectorExposure, Total;
    if NamesOk(p, ctx, policy, 0.0) {
      forall s | s in p ensures NameOk(s, p[s], ctx, policy, TOLERANCE) { assert NameOk(s, p[s], ctx, policy, 0.0); }
    }
  }

  /** For a long-only policy settled means within every limit exactly. */
  lemma SettledLongOnly(p: Weights, ctx: RiskContext, policy: InvestmentPolicy, num: Numerics)
    requires policy.Constructible() && policy.NonNegativeCeilings() && policy.longOnly && NonZero(p) == p
    ensures Settled(p, ctx, policy, num) <==> Complies(p, ctx, policy, num, 0.0)
  {
    hide SectorsOk, BookOk, Total;
    if NamesOk(p, ctx, policy, 0.0) {
      forall s | s in p ensures 0.0 < p[s] && !IsBlocked(s, ctx) {
        assert NameOk(s, p[s], ctx, policy, 0.0);
        assert s in NonZero(p);
      }
      if Total(p) <= 0.0 {
        EmptyExposure(p, ctx, num);
        NothingHeld(p, ctx, policy, num);
      }
    }
  }

  lemma NothingHeld(p: Weights, ctx: RiskContext, policy: InvestmentPolicy, num: Numerics)
    requires policy.Constructible() && policy.NonNegativeCeilings() && Total(p) <= 0.0
    requires PortfolioBeta(p, ctx.betas) == 0.0 && PortfolioVolatility(p, ctx.covariance, num) == 0.0
    ensures BookOk(p, ctx, policy, num, 0.0)
  {
    hide Total, Dot, PortfolioVolatility;
  }

  // ----- compliant results are fixed points

  lemma ScaleBookOk(w: Weights, f: real, ctx: RiskContext, policy: InvestmentPolicy, num: Numerics)
    requires policy.Constructible() && policy.NonNegativeCeilings() && num.ExactRoot()
    requires 0.0 <= f <= 1.0
    requires BookOk(w, ctx, policy, num, 0.0)
    ensures BookOk(Scale(f, w), ctx, policy, num, 0.0)
  {
    hide Total, Dot, PortfolioVolatility;
    TotalScale(f, w);
    DotScale(f, w, ctx.betas);
    ShrinkName(Total(w), f, policy.maxGrossExposure);
    ShrinkName(Total(w), f, 1.0 - policy.minCashBuffer);
    ShrinkName(PortfolioBeta(w, ctx.betas), f, policy.maxPortfolioBeta);
    ShrinkName(PortfolioVolatility(w, ctx.covariance, num), f, policy.maxAnnualizedVolatility);
    VolatilityScaled(w, ctx.covariance, num, f, policy.maxAnnualizedVolatility);
  }

  lemma ScaleSettled(w: Weights, f: real, ctx: RiskContext, policy: InvestmentPolicy, num: Numerics)
    requires policy.Constructible() && policy.NonNegativeCeilings() && num.ExactRoot()
    requires 0.0 <= f <= 1.0
    requires Settled(w, ctx, policy, num)
    ensures Settled(Scale(f, w), ctx, policy, num)
  {
    hide NamesOk, SectorsOk, BookOk, Total;
    ScaleNamesOk(w, f, ctx, policy);
    TotalScale(f, w);
    assert NothingBlocked(Scale(f, w), ctx);
    hide Scale, NothingBlocked;
    PositiveScale(f, Total(w), Total(Scale(f, w)));
    if 0.0 < Total(w) { ScaleBookOk(w, f, ctx, policy, num); }
  }

  lemma PositiveScale(f: real, x: real, fx: real)
    requires 0.0 <= f && fx == f * x
    ensures 0.0 < fx ==> 0.0 < x
  {
    if x <= 0.0 { NonNegative(f, -x); }
  }

  lemma SameSettled(x: Weights, y: Weights, ctx: RiskContext, policy: InvestmentPolicy, num: Numerics)
    requires SameEntries(x, y) && y.Keys <= x.Keys && Settled(x, ctx, policy, num)
    ensures Settled(y, ctx, policy, num)
  {
    hide Sum, Total, Dot, PortfolioVolatility, Variance;
    SameLinear(x, y, ctx.betas);
    SameVariance(x, y, ctx.covariance);
    SameVolatility(x, y, ctx.covariance, num);
    forall s | s in y
      ensures NameOk(s, y[s], ctx, policy, 0.0) && !IsBlocked(s, ctx)
      ensures SectorExposure(y, ctx.sectors, SectorOf(s, ctx.sectors)) <= policy.maxSectorWeight
    {
      assert Get(x, s) == Get(y, s);
      SameSector(x, y, ctx.sectors, SectorOf(s, ctx.sectors));
    }
  }

  lemma SameVolatility(x: Weights, y: Weights, c: Covariance, num: Numerics)
    requires Variance(x, c) == Variance(y, c)
    ensures PortfolioVolatility(x, c, num) == PortfolioVolatility(y, c, num)
  {
    hide Variance;
  }

  /** The repairs always end at a settled book, short positions or not. */
  lemma TargetIsSettled(proposed: Weights, ctx: RiskContext, policy: InvestmentPolicy, num: Numerics)
    requires policy.Constructible() && policy.NonNegativeCeilings() && num.ExactRoot()
    ensures Settled(Target(proposed, ctx, policy, num).0, ctx, policy, num)
  {
    hide Total, Dot, NamesOk, SectorsOk, BookOk, Start, NameRepairs, SectorScaled, PortfolioVolatility, Ratio, VolatilityCeiling;
    var b := SectorCapped(proposed, ctx, policy, num);
    SectorCappedOk(proposed, ctx, policy, num);
    UniformNamesOk(b, ctx, policy, num);
    TargetUnblocked(proposed, ctx, policy, num);
    if 0.0 < Total(b) { UniformScaleWorks(b, ctx, policy, num); }
  }

  lemma TargetUnblocked(proposed: Weights, ctx: RiskContext, policy: InvestmentPolicy, num: Numerics)
    requires policy.Constructible()
    ensures NothingBlocked(Target(proposed, ctx, policy, num).0, ctx)
  {
    hide Total, Start, NameRepairs, UniformFactor, SectorFactor, SectorExposure;
    NameRepairsOk(Start(proposed, ctx, policy, num), ctx, policy);
  }

  lemma BlendFromCash(w: Weights, t: real)
    ensures Blend(map[], w, t) == Scale(t, w)
  {
    var z, y := Blend(map[], w, t), Scale(t, w);
    forall s | s in w ensures z[s] == y[s] {
      assert z[s] == Between(0.0, w[s], t);
    }
    assert z.Keys == y.Keys;
  }

  /** From cash, the capped move toward the target is settled. */
  lemma FundedFromCash(proposed: Weights, ctx: RiskContext, policy: InvestmentPolicy, num: Numerics)
    requires policy.Constructible() && policy.NonNegativeCeilings() && num.ExactRoot()
    requires ctx.currentWeights == map[]
    ensures Settled(TurnoverCapped(Target(proposed, ctx, policy, num).0, ctx, policy), ctx, policy, num)
  {
    hide Target, Settled, Turnover;
    var target := Target(proposed, ctx, policy, num).0;
    TargetIsSettled(proposed, ctx, policy, num);
    if TradesTooMuch(target, ctx, policy) {
      var t := BlendFactor(target, ctx, policy);
      var z := Blend(ctx.currentWeights, target, t);
      BlendFactorBounds(target, ctx, policy);
      BlendFromCash(target, t);
      ScaleSettled(target, t, ctx, policy, num);
      NonZeroEntries(z);
      SameSettled(z, NonZero(z), ctx, policy, num);
    }
  }

  lemma SafetyFirstSame(x: Weights, y: Weights, ctx: RiskContext, policy: InvestmentPolicy, num: Numerics)
    requires SameEntries(x, y)
    ensures SafetyFirstOk(x, ctx, policy, num) <==> SafetyFirstOk(y, ctx, policy, num)
  {
    hide Sum;
    SameLinear(x, y, ctx.expectedReturns);
    SameVariance(x, y, ctx.covariance);
  }

  /** Feeding a result back changes nothing: re-evaluating it from cash approves the same
      weights, zeros apart, whatever the policy allows. */
  lemma ResultsAreFixedPoints(proposed: Weights, ctx: RiskContext, policy: InvestmentPolicy, num: Numerics)
    requires policy.Constructible() && policy.NonNegativeCeilings() && num.ExactRoot()
    requires ctx.currentWeights == map[] && !BreakerTripped(ctx, policy)
    ensures var first := Evaluate(proposed, ctx, policy, num);
      var again := Evaluate(first.weights, ctx, policy, num);
      first.decision != Rejected ==> again.decision == Approved && again.weights == NonZero(first.weights)
  {
    hide Target, Settled, SafetyFirstOk, Turnover, Verify, Metrics, MaxDrift, Total, NonZero, TurnoverCapped, TradesTooMuch;
    hide NamesOk, SectorsOk, BookOk;
    if Evaluate(proposed, ctx, policy, num).decision != Rejected {
      var w := Evaluate(proposed, ctx, policy, num).weights;
      var p := NonZero(w);
      FundedFromCash(proposed, ctx, policy, num);
      NonZeroEntries(w);
      NonZeroHasNoZeros(w);
      SameSettled(w, p, ctx, policy, num);
      VerifyExact(w, ctx, policy, num);
      SameComplies(w, p, ctx, policy, num, TOLERANCE);
      SafetyFirstSame(w, p, ctx, policy, num);
      TurnoverWithinCap(proposed, ctx, policy, num);
      TurnoverSame(ctx.currentWeights, w, p);
      ApprovedExactly(w, ctx, policy, num);
      ApprovedIsUntouched(w, ctx, policy, num);
    }
  }
}
