/** When a refusal carries a code the engine calls repairable: the turnover blend may not
    move far enough away from a book that breaks a rule. */
module RiskRefusals {
  import opened Arithmetic
  import opened Sums
  import opened Policies
  import opened RiskEngine
  import opened RiskLimits
  import opened RepairedTargets
  import opened RiskTheorems
  import opened RiskFixedPoints

  /** A measure t of the way from its value x to its value y. */
  function Moved(x: real, y: real, t: real): real {
    (1.0 - t) * x + t * y
  }

  /** A measure above its limit is brought back under it. */
  ghost predicate BroughtBack(held: real, target: real, t: real, limit: real) {
    held > limit + TOLERANCE ==> Moved(held, target, t) <= limit + TOLERANCE
  }

  /** One name of the book held, moved toward its target weight. An unlisted name, whose
      target is 0, is only ever brought down, never out. */
  ghost predicate NameBroughtBack(s: string, held: real, target: real, t: real, ctx: RiskContext, policy: InvestmentPolicy) {
    && (policy.longOnly && held < -TOLERANCE ==> -TOLERANCE <= Moved(held, target, t))
    && BroughtBack(held, target, t, policy.maxPositionWeight)
    && (s !in ctx.universe ==> held == 0.0)
    && (IsBlocked(s, ctx) ==> (1.0 - t) * held <= TOLERANCE)
  }

  /** A move as far as the turnover cap allows repairs every rule the book held breaks, read
      off that book and the target, without the blend. */
  ghost predicate MoveRepairs(w: Weights, ctx: RiskContext, policy: InvestmentPolicy)
    requires TradesTooMuch(w, ctx, policy)
  {
    var held, t := ctx.currentWeights, BlendFactor(w, ctx, policy);
    && (forall s :: s in held ==> NameBroughtBack(s, held[s], Get(w, s), t, ctx, policy))
    && (forall s :: s in held ==>
          BroughtBack(SectorExposure(held, ctx.sectors, SectorOf(s, ctx.sectors)),
                      SectorExposure(w, ctx.sectors, SectorOf(s, ctx.sectors)), t, policy.maxSectorWeight))
    && BroughtBack(Total(held), Total(w), t, policy.maxGrossExposure)
    && BroughtBack(Total(held), Total(w), t, 1.0 - policy.minCashBuffer)
    && Moved(Dot(held, ctx.betas), Dot(w, ctx.betas), t) <= policy.maxPortfolioBeta + TOLERANCE
    && ExpandedOver(held.Keys + w.Keys, 1.0 - t, Entry(held), t, Entry(w), ctx.covariance)
       <= (policy.maxAnnualizedVolatility + TOLERANCE) * (policy.maxAnnualizedVolatility + TOLERANCE)
  }

  /** The same for any settled target. One within the turnover cap is gone to; it can only
      break a rule if its exposure is not positive, for then nothing scaled it. */
  ghost predicate MoveComplies(w: Weights, ctx: RiskContext, policy: InvestmentPolicy, num: Numerics) {
    if TradesTooMuch(w, ctx, policy) then MoveRepairs(w, ctx, policy)
    else
      || 0.0 < Total(w)
      || (&& PortfolioBeta(w, ctx.betas) <= policy.maxPortfolioBeta + TOLERANCE
          && PortfolioVolatility(w, ctx.covariance, num) <= policy.maxAnnualizedVolatility + TOLERANCE)
  }

  lemma BroughtBackExactly(x: real, y: real, t: real, limit: real)
    requires 0.0 <= t <= 1.0 && y <= limit
    ensures Moved(x, y, t) <= limit + TOLERANCE <==> BroughtBack(x, y, t, limit)
  {
    if x <= limit + TOLERANCE { MixAtMost(x, y, t, limit + TOLERANCE); }
  }

  lemma BlendStrictlyShort(w: Weights, ctx: RiskContext, policy: InvestmentPolicy)
    requires 0.0 <= policy.maxTurnover && TradesTooMuch(w, ctx, policy)
    ensures 0.0 <= BlendFactor(w, ctx, policy) < 1.0
  {
    hide Turnover;
    BlendFactorBounds(w, ctx, policy);
    ProperPart(BlendFactor(w, ctx, policy), Turnover(ctx.currentWeights, w), policy.maxTurnover);
  }

  lemma ProperPart(t: real, whole: real, part: real)
    requires t <= 1.0 && t * whole == part < whole
    ensures t < 1.0
  {
  }

  lemma MovedEntry(x: Weights, y: Weights, t: real, s: string)
    ensures Get(Blend(x, y, t), s) == Moved(Get(x, s), Get(y, s), t)
  {
    var a, b := Get(x, s), Get(y, s);
    assert a + t * (b - a) == (1.0 - t) * a + t * b;
    if s in x || s in y { assert Get(Blend(x, y, t), s) == Between(a, b, t); } else { assert Moved(0.0, 0.0, t) == 0.0; }
  }

  /** A name is fine after the move exactly when it was brought back. */
  lemma NameMoved(s: string, x: real, y: real, t: real, ctx: RiskContext, policy: InvestmentPolicy)
    requires 0.0 <= t < 1.0 && policy.Constructible() && y <= policy.maxPositionWeight && (policy.longOnly ==> 0.0 <= y)
    requires s !in ctx.universe || IsBlocked(s, ctx) ==> y == 0.0
    ensures Moved(x, y, t) == 0.0 || NameOk(s, Moved(x, y, t), ctx, policy, TOLERANCE) <==> NameBroughtBack(s, x, y, t, ctx, policy)
  {
    BroughtBackExactly(x, y, t, policy.maxPositionWeight);
    LowerEnd(x, y, t);
    Fraction(1.0 - t, x, (1.0 - t) * x);
  }

  lemma LowerEnd(x: real, y: real, t: real)
    requires 0.0 <= t <= 1.0
    ensures 0.0 <= y && -TOLERANCE <= x ==> -TOLERANCE <= Moved(x, y, t)
    ensures y == 0.0 ==> Moved(x, y, t) == (1.0 - t) * x
  {
    if 0.0 <= y && -TOLERANCE <= x {
      NonNegative(t, y);
      NonNegative(1.0 - t, x + TOLERANCE);
    }
  }

  lemma Fraction(f: real, x: real, fx: real)
    requires 0.0 < f && fx == f * x
    ensures fx == 0.0 <==> x == 0.0
  {
    if x > 0.0 { PositiveProduct(f, x, fx); }
    if x < 0.0 { PositiveProduct(f, -x, -fx); }
  }

  lemma NamesMoved(w: Weights, ctx: RiskContext, policy: InvestmentPolicy)
    requires policy.Constructible() && 0.0 <= policy.maxTurnover && TradesTooMuch(w, ctx, policy)
    requires NamesOk(w, ctx, policy, 0.0) && NothingBlocked(w, ctx)
    ensures NamesOk(TurnoverCapped(w, ctx, policy), ctx, policy, TOLERANCE)
            <==> forall s :: s in ctx.currentWeights ==>
                   NameBroughtBack(s, ctx.currentWeights[s], Get(w, s), BlendFactor(w, ctx, policy), ctx, policy)
  {
    hide Turnover, NameBroughtBack, NameOk, Moved;
    var held, t, z := ctx.currentWeights, BlendFactor(w, ctx, policy), TurnoverCapped(w, ctx, policy);
    BlendStrictlyShort(w, ctx, policy);
    forall s | s in held || s in w
      ensures s in z <==> Moved(Get(held, s), Get(w, s), t) != 0.0
      ensures s in z ==> z[s] == Moved(Get(held, s), Get(w, s), t)
      ensures s !in z || NameOk(s, z[s], ctx, policy, TOLERANCE) <==> NameBroughtBack(s, Get(held, s), Get(w, s), t, ctx, policy)
      ensures s !in held ==> NameBroughtBack(s, Get(held, s), Get(w, s), t, ctx, policy)
    {
      MovedEntry(held, w, t, s);
      TargetName(w, s, ctx, policy);
      NameMoved(s, Get(held, s), Get(w, s), t, ctx, policy);
      if s !in held { NotHeld(s, Get(w, s), t, ctx, policy); }
    }
    assert forall s :: s in z ==> s in held || s in w;
  }

  lemma TargetName(w: Weights, s: string, ctx: RiskContext, policy: InvestmentPolicy)
    requires policy.Constructible() && NamesOk(w, ctx, policy, 0.0) && NothingBlocked(w, ctx)
    ensures Get(w, s) <= policy.maxPositionWeight && (policy.longOnly ==> 0.0 <= Get(w, s))
    ensures s !in ctx.universe || IsBlocked(s, ctx) ==> Get(w, s) == 0.0
  {
    if s in w { assert NameOk(s, w[s], ctx, policy, 0.0); }
  }

  lemma NotHeld(s: string, y: real, t: real, ctx: RiskContext, policy: InvestmentPolicy)
    requires policy.Constructible()
    ensures NameBroughtBack(s, 0.0, y, t, ctx, policy)
  {
    assert (1.0 - t) * 0.0 == 0.0;
  }

  lemma SectorsMoved(w: Weights, ctx: RiskContext, policy: InvestmentPolicy)
    requires policy.Constructible() && 0.0 <= policy.maxTurnover && TradesTooMuch(w, ctx, policy)
    requires SectorsOk(w, ctx, policy, 0.0)
    ensures SectorsOk(TurnoverCapped(w, ctx, policy), ctx, policy, TOLERANCE)
            <==> forall s :: s in ctx.currentWeights ==>
                   BroughtBack(SectorExposure(ctx.currentWeights, ctx.sectors, SectorOf(s, ctx.sectors)),
                               SectorExposure(w, ctx.sectors, SectorOf(s, ctx.sectors)),
                               BlendFactor(w, ctx, policy), policy.maxSectorWeight)
  {
    hide Turnover, SectorExposure, BroughtBack, Moved, Blend, NonZero;
    var held, t, z := ctx.currentWeights, BlendFactor(w, ctx, policy), TurnoverCapped(w, ctx, policy);
    BlendFactorBounds(w, ctx, policy);
    forall s
      ensures var e := SectorOf(s, ctx.sectors);
        SectorExposure(z, ctx.sectors, e) <= policy.maxSectorWeight + TOLERANCE
        <==> BroughtBack(SectorExposure(held, ctx.sectors, e), SectorExposure(w, ctx.sectors, e), t, policy.maxSectorWeight)
    {
      SectorMoved(w, ctx, policy, SectorOf(s, ctx.sectors));
    }
    if SectorsOk(z, ctx, policy, TOLERANCE) {
      forall s | s in held
        ensures SectorExposure(z, ctx.sectors, SectorOf(s, ctx.sectors)) <= policy.maxSectorWeight + TOLERANCE
      {
        EverySectorOk(z, ctx, policy, TOLERANCE, SectorOf(s, ctx.sectors));
      }
    } else {
      var s :| s in z && SectorExposure(z, ctx.sectors, SectorOf(s, ctx.sectors)) > policy.maxSectorWeight + TOLERANCE;
      var e := SectorOf(s, ctx.sectors);
      var k := SectorHasName(held, ctx, policy, e, SectorExposure(w, ctx.sectors, e), t);
      assert SectorOf(k, ctx.sectors) == e;
    }
  }

  lemma SectorMoved(w: Weights, ctx: RiskContext, policy: InvestmentPolicy, e: string)
    requires policy.Constructible() && 0.0 <= policy.maxTurnover && TradesTooMuch(w, ctx, policy)
    requires SectorsOk(w, ctx, policy, 0.0)
    ensures SectorExposure(TurnoverCapped(w, ctx, policy), ctx.sectors, e) <= policy.maxSectorWeight + TOLERANCE
            <==> BroughtBack(SectorExposure(ctx.currentWeights, ctx.sectors, e), SectorExposure(w, ctx.sectors, e),
                             BlendFactor(w, ctx, policy), policy.maxSectorWeight)
  {
    hide Turnover, SectorExposure, BroughtBack, Blend, NonZero, SectorsOk;
    var held, t := ctx.currentWeights, BlendFactor(w, ctx, policy);
    var z := Blend(held, w, t);
    BlendFactorBounds(w, ctx, policy);
    NonZeroEntries(z);
    SameSector(z, NonZero(z), ctx.sectors, e);
    SectorBlend(held, w, t, ctx.sectors, e);
    EverySectorOk(w, ctx, policy, 0.0, e);
    BroughtBackExactly(SectorExposure(held, ctx.sectors, e), SectorExposure(w, ctx.sectors, e), t, policy.maxSectorWeight);
  }

  /** A sector that is not brought back has a name held in it. */
  lemma SectorHasName(held: Weights, ctx: RiskContext, policy: InvestmentPolicy, e: string, y: real, t: real) returns (k: string)
    requires policy.Constructible() && !BroughtBack(SectorExposure(held, ctx.sectors, e), y, t, policy.maxSectorWeight)
    ensures k in held && SectorOf(k, ctx.sectors) == e
  {
    var members := SectorMembers(held, ctx.sectors, e);
    if members == {} {
      SumZero({}, Entry(held));
      assert false;
    }
    k :| k in members;
  }

  lemma MovedMeasures(w: Weights, ctx: RiskContext, policy: InvestmentPolicy)
    requires 0.0 <= policy.maxTurnover && TradesTooMuch(w, ctx, policy)
    ensures var held, t, z := ctx.currentWeights, BlendFactor(w, ctx, policy), TurnoverCapped(w, ctx, policy);
      && Total(z) == Moved(Total(held), Total(w), t)
      && Dot(z, ctx.betas) == Moved(Dot(held, ctx.betas), Dot(w, ctx.betas), t)
      && Variance(z, ctx.covariance) == ExpandedOver(held.Keys + w.Keys, 1.0 - t, Entry(held), t, Entry(w), ctx.covariance)
  {
    hide Turnover, Total, Dot, Variance, ExpandedOver, Blend, NonZero;
    var held, t := ctx.currentWeights, BlendFactor(w, ctx, policy);
    var z := Blend(held, w, t);
    NonZeroEntries(z);
    SameLinear(z, NonZero(z), ctx.betas);
    SameVariance(z, NonZero(z), ctx.covariance);
    TotalBlend(held, w, t);
    DotBlend(held, w, t, ctx.betas);
    VarianceOfBlend(held, w, t, ctx.covariance);
  }

  lemma BookMoved(w: Weights, ctx: RiskContext, policy: InvestmentPolicy, num: Numerics)
    requires policy.Constructible() && policy.NonNegativeCeilings() && num.ExactRoot() && TradesTooMuch(w, ctx, policy)
    requires Total(w) <= policy.maxGrossExposure && Total(w) <= 1.0 - policy.minCashBuffer
    ensures var held, t := ctx.currentWeights, BlendFactor(w, ctx, policy);
      BookOk(TurnoverCapped(w, ctx, policy), ctx, policy, num, TOLERANCE)
      <==> (&& BroughtBack(Total(held), Total(w), t, policy.maxGrossExposure)
            && BroughtBack(Total(held), Total(w), t, 1.0 - policy.minCashBuffer)
            && Moved(Dot(held, ctx.betas), Dot(w, ctx.betas), t) <= policy.maxPortfolioBeta + TOLERANCE
            && ExpandedOver(held.Keys + w.Keys, 1.0 - t, Entry(held), t, Entry(w), ctx.covariance)
               <= (policy.maxAnnualizedVolatility + TOLERANCE) * (policy.maxAnnualizedVolatility + TOLERANCE))
  {
    hide Turnover, Total, Dot, Variance, ExpandedOver, BroughtBack, PortfolioVolatility, TurnoverCapped, Moved;
    var held, t, z := ctx.currentWeights, BlendFactor(w, ctx, policy), TurnoverCapped(w, ctx, policy);
    BlendFactorBounds(w, ctx, policy);
    hide BlendFactor, TradesTooMuch;
    MovedMeasures(w, ctx, policy);
    VolatilityAtMost(z, ctx.covariance, num, policy.maxAnnualizedVolatility + TOLERANCE);
    BroughtBackExactly(Total(held), Total(w), t, policy.maxGrossExposure);
    BroughtBackExactly(Total(held), Total(w), t, 1.0 - policy.minCashBuffer);
  }

  /** A settled book is within the limits on its exposure, positive or not. */
  lemma SettledExposure(w: Weights, ctx: RiskContext, policy: InvestmentPolicy, num: Numerics)
    requires policy.Constructible() && Settled(w, ctx, policy, num)
    ensures Total(w) <= policy.maxGrossExposure && Total(w) <= 1.0 - policy.minCashBuffer
  {
    hide Total, Dot, PortfolioVolatility, NamesOk, SectorsOk, NothingBlocked;
  }

  /** The capped move toward a settled target complies exactly when it repairs every rule
      the book held breaks. */
  lemma MoveExactly(w: Weights, ctx: RiskContext, policy: InvestmentPolicy, num: Numerics)
    requires policy.Constructible() && policy.NonNegativeCeilings() && num.ExactRoot()
    requires Settled(w, ctx, policy, num)
    ensures Complies(TurnoverCapped(w, ctx, policy), ctx, policy, num, TOLERANCE) <==> MoveComplies(w, ctx, policy, num)
  {
    hide TradesTooMuch, NamesOk, SectorsOk, MoveRepairs;
    if TradesTooMuch(w, ctx, policy) {
      hide TurnoverCapped, Settled, BookOk;
      MovedExactly(w, ctx, policy, num);
    } else {
      assert TurnoverCapped(w, ctx, policy) == w;
      hide TurnoverCapped, Total, Dot, PortfolioVolatility;
      SettledExposure(w, ctx, policy, num);
      SettledComplies(w, ctx, policy, num);
    }
  }

  lemma MovedExactly(w: Weights, ctx: RiskContext, policy: InvestmentPolicy, num: Numerics)
    requires policy.Constructible() && policy.NonNegativeCeilings() && num.ExactRoot() && TradesTooMuch(w, ctx, policy)
    requires Settled(w, ctx, policy, num)
    ensures NamesOk(TurnoverCapped(w, ctx, policy), ctx, policy, TOLERANCE)
            && SectorsOk(TurnoverCapped(w, ctx, policy), ctx, policy, TOLERANCE)
            && BookOk(TurnoverCapped(w, ctx, policy), ctx, policy, num, TOLERANCE)
            <==> MoveRepairs(w, ctx, policy)
  {
    hide TradesTooMuch, NamesOk, SectorsOk, BookOk, BroughtBack, NameBroughtBack, ExpandedOver, NothingBlocked;
    hide SectorExposure, Total, Dot, BlendFactor, TurnoverCapped, Moved;
    SettledExposure(w, ctx, policy, num);
    NamesMoved(w, ctx, policy);
    SectorsMoved(w, ctx, policy);
    BookMoved(w, ctx, policy, num);
  }

  /** With nothing assumed of the book held or of what the policy allows, a refusal carries
      only terminal codes if and only if the corridor applied, or the move the turnover cap
      allows toward the target complies, read off the book held and the target. */
  lemma RefusalIsTerminalExactly(proposed: Weights, ctx: RiskContext, policy: InvestmentPolicy, num: Numerics)
    requires policy.Constructible() && policy.NonNegativeCeilings() && num.ExactRoot()
    ensures var target := Target(proposed, ctx, policy, num).0;
      OnlyTerminal(Evaluate(proposed, ctx, policy, num).violations)
      <==> InsideCorridor(target, ctx, policy) || MoveComplies(target, ctx, policy, num)
  {
    hide Target, Complies, TradesTooMuch, Verify, Metrics, MaxDrift, Total, MoveComplies, TurnoverCapped, Settled;
    var target := Target(proposed, ctx, policy, num).0;
    TargetIsSettled(proposed, ctx, policy, num);
    MoveExactly(target, ctx, policy, num);
    var final := TurnoverCapped(target, ctx, policy);
    VerifyExact(final, ctx, policy, num);
    NoCorridorCode(final, ctx, policy, num);
  }

  /** For a long-only policy, or past the breaker, a target the cap allows to reach always
      complies. */
  lemma LongOnlyComplies(proposed: Weights, ctx: RiskContext, policy: InvestmentPolicy, num: Numerics)
    requires policy.Constructible() && policy.NonNegativeCeilings() && num.ExactRoot()
    requires policy.longOnly || BreakerTripped(ctx, policy)
    ensures var target := Target(proposed, ctx, policy, num).0;
      MoveComplies(target, ctx, policy, num) <==> !TradesTooMuch(target, ctx, policy) || MoveRepairs(target, ctx, policy)
  {
    hide Target, TradesTooMuch, Total, Dot, PortfolioVolatility, MoveRepairs, NonNegativeBook, NamesOk, SectorsOk;
    TargetMeetsLimits(proposed, ctx, policy, num);
  }

  /** The plainest case: a name held but no longer listed refuses every target outside the
      corridor that the turnover cap does not let the book reach. */
  lemma UnlistedHoldingIsRefused(proposed: Weights, ctx: RiskContext, policy: InvestmentPolicy, num: Numerics, s: string)
    requires policy.Constructible() && policy.NonNegativeCeilings() && num.ExactRoot()
    requires s in ctx.currentWeights && ctx.currentWeights[s] != 0.0 && s !in ctx.universe
    ensures var target, a := Target(proposed, ctx, policy, num).0, Evaluate(proposed, ctx, policy, num);
      TradesTooMuch(target, ctx, policy) && !InsideCorridor(target, ctx, policy) ==>
        a.decision == Rejected && !OnlyTerminal(a.violations) && a.weights == ctx.currentWeights
  {
    hide Target, Evaluate, Turnover, InsideCorridor, TurnoverCapped, Verify, Total, Dot, SectorExposure, ExpandedOver;
    RefusalIsTerminalExactly(proposed, ctx, policy, num);
    ReturnedWeights(proposed, ctx, policy, num);
    AcceptedHasNone(proposed, ctx, policy, num);
  }

  lemma AcceptedHasNone(proposed: Weights, ctx: RiskContext, policy: InvestmentPolicy, num: Numerics)
    ensures var a := Evaluate(proposed, ctx, policy, num); a.decision != Rejected ==> a.violations == []
  {
    hide Target, TurnoverCapped, TradesTooMuch, Turnover, Verify, Metrics, MaxDrift, Total;
  }
}
