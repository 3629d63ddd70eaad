/** Inputs just outside the guarantees: each hypothesis of the theorems is needed. */
module RiskEdges {
  import opened Arithmetic
  import opened Options
  import opened Ordering
  import opened Sums
  import opened Policies
  import opened RiskEngine
  import opened RiskLimits
  import opened RepairedTargets
  import opened RiskTheorems
  import opened RiskRefusals

  const LOOSE := InvestmentPolicy(1.2, 1.0, SafetyFirstPolicy(0.0, -100.0), 0.0, true, 1.0, 1.0, 1.0, 0.0, 1.0, 0.0, 0.2)

  /** One listed name, no holdings, the breaker limit passed when `drawdown` is above 0.2. */
  function OneName(beta: real, drawdown: real): RiskContext {
    RiskContext(0, map[], map["A" := "S"], map["A" := beta], map["A" := map["A" := 0.04]], map[], {"A"}, drawdown, 0.0, map[])
  }

  lemma SumSingle(keys: set<string>, k: string, f: Vector)
    requires k in keys && forall j :: j in keys && j != k ==> f(j) == 0.0
    ensures Sum(keys, f) == f(k)
  {
    SumRemove(keys, k, f);
    SumZero(keys - {k}, f);
  }

  lemma Singleton(k: string)
    ensures SortedKeys({k}) == [k]
    ensures forall f: Vector :: Sum({k}, f) == f(k)
  {
    assert {k} - {k} == {};
    assert Least({k}) == k;
    forall f: Vector ensures Sum({k}, f) == f(k) {
      assert Sum({k}, f) == f(k) + Sum({k} - {k}, f);
    }
  }

  lemma OneVariance(w: Weights, v: real)
    ensures var c := map["A" := map["A" := v]];
      Variance(w, c) == Get(w, "A") * Get(w, "A") * v
  {
    hide Sum;
    var c, x, keys := map["A" := map["A" := v]], Entry(w), w.Keys + {"A"};
    VarianceOver(w, c, keys);
    forall a | a != "A" ensures RowSum(keys, x, x, c)(a) == 0.0 {
      SumZero(keys, CellProduct(x, x, c, a));
    }
    SumSingle(keys, "A", RowSum(keys, x, x, c));
    SumSingle(keys, "A", CellProduct(x, x, c, "A"));
  }

  lemma OneNamePsd(v: real)
    requires 0.0 <= v
    ensures PositiveSemidefinite(map["A" := map["A" := v]])
  {
    forall w: map<string, real> ensures 0.0 <= Variance(w, map["A" := map["A" := v]]) {
      OneVariance(w, v);
      var x := Get(w, "A");
      assert 0.0 <= x * x by { if x < 0.0 { NonNegative(-x, -x); } else { NonNegative(x, x); } }
      NonNegative(x * x, v);
    }
  }

  lemma OneMeasures(x: real, ctx: RiskContext)
    ensures var w: Weights := map["A" := x];
      && Total(w) == x
      && Dot(w, ctx.betas) == x * Get(ctx.betas, "A")
      && SectorExposure(w, ctx.sectors, SectorOf("A", ctx.sectors)) == x
      && Turnover(map[], w) == Abs(x) / 2.0
  {
    var w: Weights := map["A" := x];
    Singleton("A");
    assert w.Keys == {"A"};
    assert SectorMembers(w, ctx.sectors, SectorOf("A", ctx.sectors)) == {"A"};
    var none: Weights := map[];
    assert none.Keys + w.Keys == {"A"};
  }

  lemma OneRepairs(x: real, ctx: RiskContext, policy: InvestmentPolicy)
    requires ctx.universe == {"A"} && ctx.blockedUntil == map[]
    requires (policy.longOnly ==> 0.0 <= x) && x <= policy.maxPositionWeight && x <= policy.maxSectorWeight
    ensures SectorScaled(NameRepairs(map["A" := x], ctx, policy).0, ctx, policy) == map["A" := x]
  {
    hide Sum, LoggedOver, SectorExposure;
    var w: Weights := map["A" := x];
    OneNameRepairs(x, ctx, policy);
    hide NameRepairs;
    OneMeasures(x, ctx);
    assert SectorFactor(x, policy) == 1.0;
    hide SectorFactor, Total, Dot, Turnover;
    assert SectorScaled(w, ctx, policy) == w;
  }

  lemma OneNameRepairs(x: real, ctx: RiskContext, policy: InvestmentPolicy)
    requires ctx.universe == {"A"} && ctx.blockedUntil == map[]
    requires (policy.longOnly ==> 0.0 <= x) && x <= policy.maxPositionWeight
    ensures NameRepairs(map["A" := x], ctx, policy).0 == map["A" := x]
  {
    hide LoggedOver;
  }

  lemma MinimumVarianceOfOne(drawdown: real, num: Numerics)
    requires num.minimumVariance(Matrix(["A"], map["A" := map["A" := 0.04]])) == Some([1.0])
    ensures MinimumVariance(OneName(1.0, drawdown), num) == map["A" := 1.0]
  {
    var ctx := OneName(1.0, drawdown);
    Singleton("A");
    assert ctx.universe * ctx.covariance.Keys == {"A"};
    assert PositiveWeights(["A"], [1.0]) == map["A" := 1.0];
  }

  lemma OneVolatility(x: real, ctx: RiskContext, num: Numerics)
    requires num.ExactRoot() && ctx.covariance == map["A" := map["A" := 0.04]] && 0.0 <= x
    ensures PortfolioVolatility(map["A" := x], ctx.covariance, num) == 0.2 * x
  {
    hide Variance;
    var w: Weights := map["A" := x];
    OneVariance(w, 0.04);
    VolatilitySquared(w, ctx.covariance, num);
    SameSquare(PortfolioVolatility(w, ctx.covariance, num), 0.2 * x);
  }

  lemma SameSquare(r: real, c: real)
    requires 0.0 <= r && 0.0 <= c && r * r == c * c
    ensures r == c
  {
    SquareOrder(r, c);
    SquareOrder(c, r);
  }

  lemma BreakerTargetOfOne(num: Numerics)
    requires num.ExactRoot()
    requires num.minimumVariance(Matrix(["A"], map["A" := map["A" := 0.04]])) == Some([1.0])
    ensures Target(map[], OneName(1.0, 0.5), LOOSE, num).0 == map["A" := 1.0]
  {
    var ctx := OneName(1.0, 0.5);
    MinimumVarianceOfOne(0.5, num);
    OneRepairs(1.0, ctx, LOOSE);
    OneMeasures(1.0, ctx);
    OneVolatility(1.0, ctx, num);
    hide Sum, Variance, SortedKeys, NameRepairs, SectorScaled, MinimumVariance, PortfolioVolatility, Dot, Total;
    assert VolatilityCeiling(ctx, LOOSE, num) == 1.0;
    assert UniformFactor(map["A" := 1.0], ctx, LOOSE, num) == 1.0;
  }

  lemma BreakerMoves()
    ensures var ctx := OneName(1.0, 0.5);
      !InsideCorridor(map["A" := 1.0], ctx, LOOSE) && !TradesTooMuch(map["A" := 1.0], ctx, LOOSE)
  {
    OneMeasures(1.0, OneName(1.0, 0.5));
    hide Sum, Turnover, Total, Dot, SectorExposure;
  }

  /** From a riskless book the breaker does add risk: an all-cash book past the breaker is
      moved into the minimum-variance portfolio. */
  lemma BreakerFromCashAddsRisk(num: Numerics)
    requires num.ExactRoot()
    requires num.minimumVariance(Matrix(["A"], map["A" := map["A" := 0.04]])) == Some([1.0])
    ensures var ctx := OneName(1.0, 0.5);
      && LOOSE.Constructible() && LOOSE.NonNegativeCeilings() && PositiveSemidefinite(ctx.covariance)
      && BreakerTripped(ctx, LOOSE)
      && PortfolioVolatility(ctx.currentWeights, ctx.covariance, num) == 0.0
      && PortfolioVolatility(Evaluate(map[], ctx, LOOSE, num).weights, ctx.covariance, num) == 0.2
  {
    hide PositiveSemidefinite, PortfolioVolatility, Evaluate;
    var ctx := OneName(1.0, 0.5);
    BreakerBuys(num);
    OneVolatility(1.0, ctx, num);
    CashIsRiskless(ctx, num);
    OneNamePsd(0.04);
  }

  lemma CashIsRiskless(ctx: RiskContext, num: Numerics)
    ensures PortfolioVolatility(map[], ctx.covariance, num) == 0.0
  {
  }

  lemma BreakerBuys(num: Numerics)
    requires num.ExactRoot()
    requires num.minimumVariance(Matrix(["A"], map["A" := map["A" := 0.04]])) == Some([1.0])
    ensures Evaluate(map[], OneName(1.0, 0.5), LOOSE, num).weights == map["A" := 1.0]
  {
    hide Evaluate, Target, Verify, InsideCorridor, TradesTooMuch, Matrix;
    BreakerTargetOfOne(num);
    BreakerPassesGate(num);
    BreakerMoves();
    AcceptedTarget(map[], OneName(1.0, 0.5), LOOSE, num);
  }

  lemma BreakerRatio(num: Numerics)
    requires num.ExactRoot()
    ensures SafetyFirstOk(map["A" := 1.0], OneName(1.0, 0.5), LOOSE, num)
  {
    hide Sum, Total, Dot, PortfolioVolatility;
    var ctx := OneName(1.0, 0.5);
    OneMeasures(1.0, ctx.(betas := ctx.expectedReturns));
    OneMeasures(1.0, ctx);
    OneVolatility(1.0, ctx, num);
  }

  lemma BreakerPassesGate(num: Numerics)
    requires num.ExactRoot()
    requires num.minimumVariance(Matrix(["A"], map["A" := map["A" := 0.04]])) == Some([1.0])
    ensures Verify(map["A" := 1.0], OneName(1.0, 0.5), LOOSE, num) == []
  {
    hide Sum, Target, Complies, Verify, SafetyFirstOk, Matrix;
    var ctx := OneName(1.0, 0.5);
    BreakerRatio(num);
    BreakerTargetOfOne(num);
    TargetMeetsLimits(map[], ctx, LOOSE, num);
    SlackWidens(map["A" := 1.0], ctx, LOOSE, num, 0.0, TOLERANCE);
    VerifyExact(map["A" := 1.0], ctx, LOOSE, num);
  }

  /** With shorting allowed a book of negative exposure is not scaled at all, so a beta
      breach the engine calls repairable is refused instead. */
  lemma ShortBookIsNotRepaired(num: Numerics)
    requires num.ExactRoot()
    ensures var policy, ctx, proposed: Weights := LOOSE.(longOnly := false), OneName(-20.0, 0.0), map["A" := -0.1];
      && policy.Constructible() && policy.NonNegativeCeilings()
      && Complies(ctx.currentWeights, ctx, policy, num, TOLERANCE)
      && Evaluate(proposed, ctx, policy, num).decision == Rejected
      && !OnlyTerminal(Evaluate(proposed, ctx, policy, num).violations)
  {
    var policy, ctx, proposed: Weights := LOOSE.(longOnly := false), OneName(-20.0, 0.0), map["A" := -0.1];
    CashCompliesExactly(ctx, policy, num);
    ShortTarget(num);
    ShortBreach(num);
    hide Target, Verify, Complies, Total;
    RefusalIsTerminalExactly(proposed, ctx, policy, num);
    hide Evaluate, InsideCorridor, MoveComplies;
    AcceptedHasNone(proposed, ctx, policy, num);
  }

  /** The proposal is left as it is, and may be gone to in full. */
  lemma ShortTarget(num: Numerics)
    ensures var policy, ctx, proposed: Weights := LOOSE.(longOnly := false), OneName(-20.0, 0.0), map["A" := -0.1];
      Target(proposed, ctx, policy, num).0 == proposed && !InsideCorridor(proposed, ctx, policy) && !TradesTooMuch(proposed, ctx, policy)
  {
    var policy, ctx, proposed: Weights := LOOSE.(longOnly := false), OneName(-20.0, 0.0), map["A" := -0.1];
    assert NonZero(proposed) == proposed;
    OneRepairs(-0.1, ctx, policy);
    OneMeasures(-0.1, ctx);
    hide Sum, NameRepairs, SectorScaled, NonZero, Turnover, Dot, Total, Metrics, MaxDrift, Variance, SortedKeys;
  }

  /** Its beta is 2, twice the ceiling, and its exposure is not positive. */
  lemma ShortBreach(num: Numerics)
    requires var policy, ctx, proposed: Weights := LOOSE.(longOnly := false), OneName(-20.0, 0.0), map["A" := -0.1];
      !TradesTooMuch(proposed, ctx, policy)
    ensures var policy, ctx, proposed: Weights := LOOSE.(longOnly := false), OneName(-20.0, 0.0), map["A" := -0.1];
      !MoveComplies(proposed, ctx, policy, num)
  {
    OneMeasures(-0.1, OneName(-20.0, 0.0));
    hide Sum, Total, Dot, TradesTooMuch, PortfolioVolatility, MoveRepairs;
  }

  /** Long-only: the book held has drifted to all of one name, whose cap is one half, and a
      tenth of the book may be traded. */
  const DRIFTED := LOOSE.(maxPositionWeight := 0.5, maxTurnover := 0.1)

  function HeldWhole(): RiskContext {
    OneName(1.0, 0.0).(currentWeights := map["A" := 1.0])
  }

  lemma ToCash(ctx: RiskContext, policy: InvestmentPolicy, num: Numerics)
    requires !BreakerTripped(ctx, policy) && ctx.currentWeights == map["A" := 1.0]
    ensures Target(map[], ctx, policy, num).0 == map[]
    ensures Turnover(ctx.currentWeights, map[]) == 0.5 && MaxDrift(ctx.currentWeights, map[]) == 1.0
  {
    hide LoggedOver, SortedKeys;
    var none: Weights := map[];
    assert Total(none) == 0.0;
    assert NonZero(none) == none && NameRepairs(none, ctx, policy).0 == none;
    assert SectorScaled(none, ctx, policy) == none;
    Singleton("A");
    assert ctx.currentWeights.Keys + none.Keys == {"A"};
    assert Least({"A"}) == "A";
  }

  /** With the code's repairs a name above its cap can stay there: drift above a cap and the
      turnover blend refuse even a proposal to sell everything, with a code the engine
      calls repairable, under a long-only policy. */
  lemma DriftedBookIsNotRepaired(num: Numerics)
    requires num.ExactRoot()
    ensures var ctx, a := HeldWhole(), Evaluate(map[], HeldWhole(), DRIFTED, num);
      && DRIFTED.Constructible() && DRIFTED.NonNegativeCeilings() && DRIFTED.longOnly && PositiveSemidefinite(ctx.covariance)
      && a.decision == Rejected && !OnlyTerminal(a.violations) && a.weights == ctx.currentWeights
  {
    var ctx := HeldWhole();
    OneNamePsd(0.04);
    hide PositiveSemidefinite, Evaluate, Target;
    ToCash(ctx, DRIFTED, num);
    DriftIsNotRepaired(num);
    hide Turnover, MaxDrift, MoveComplies;
    RefusalIsTerminalExactly(map[], ctx, DRIFTED, num);
    AcceptedHasNone(map[], ctx, DRIFTED, num);
    ReturnedWeights(map[], ctx, DRIFTED, num);
  }

  lemma DriftIsNotRepaired(num: Numerics)
    requires Turnover(HeldWhole().currentWeights, map[]) == 0.5
    ensures !MoveComplies(map[], HeldWhole(), DRIFTED, num)
  {
    hide Sum, SectorExposure, Total, Dot, ExpandedOver, Turnover;
    var ctx := HeldWhole();
    assert BlendFactor(map[], ctx, DRIFTED) == 0.2;
    assert !NameBroughtBack("A", ctx.currentWeights["A"], 0.0, 0.2, ctx, DRIFTED);
  }
}
