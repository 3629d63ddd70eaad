/** What the risk engine guarantees over every proposal. */
module RiskTheorems {
  import opened Arithmetic
  import opened Options
  import opened Ordering
  import opened Sums
  import opened Policies
  import opened RiskEngine
  import opened RiskLimits
  import opened RepairedTargets

  /** The two codes no change of weights can repair. */
  ghost predicate Terminal(code: ReasonCode) {
    code == SafetyFirstThreshold || code == RebalanceCorridor
  }

  ghost predicate OnlyTerminal(violations: seq<Violation>) {
    forall v :: v in violations ==> Terminal(v.code)
  }

  /** Every path returns either the book held or the capped move toward the target. */
  lemma ReturnedWeights(proposed: Weights, ctx: RiskContext, policy: InvestmentPolicy, num: Numerics)
    ensures var a := Evaluate(proposed, ctx, policy, num);
      && (a.decision == Rejected ==> a.weights == ctx.currentWeights && a.violations != [])
      && (a.decision != Rejected ==>
            && a.weights == TurnoverCapped(Target(proposed, ctx, policy, num).0, ctx, policy)
            && Verify(a.weights, ctx, policy, num) == [])
  {
    hide Target, TurnoverCapped, TradesTooMuch, Turnover, Verify, Metrics, MaxDrift, Total;
  }

  /** A target outside the corridor, under the turnover cap and through the gate is
      returned as it is. */
  lemma AcceptedTarget(proposed: Weights, ctx: RiskContext, policy: InvestmentPolicy, num: Numerics)
    requires var w := Target(proposed, ctx, policy, num).0;
      !InsideCorridor(w, ctx, policy) && !TradesTooMuch(w, ctx, policy) && Verify(w, ctx, policy, num) == []
    ensures Evaluate(proposed, ctx, policy, num).weights == Target(proposed, ctx, policy, num).0
  {
    hide Target, TradesTooMuch, Turnover, Verify, Metrics, MaxDrift, Total;
  }

  // ----- turnover

  lemma TurnoverOver(x: Weights, y: Weights, keys: set<string>)
    requires x.Keys + y.Keys <= keys
    ensures Turnover(x, y) == Sum(keys, Change(x, y)) / 2.0
  {
    hide Sum;
    SumWiden(x.Keys + y.Keys, keys, Change(x, y));
  }

  lemma TurnoverNonNegative(x: Weights, y: Weights)
    ensures 0.0 <= Turnover(x, y)
  {
    hide Sum;
    SumNonNegative(x.Keys + y.Keys, Change(x, y));
  }

  lemma TurnoverSelf(x: Weights)
    ensures Turnover(x, x) == 0.0
  {
    hide Sum;
    SumZero(x.Keys + x.Keys, Change(x, x));
  }

  lemma TurnoverSame(x: Weights, y: Weights, z: Weights)
    requires SameEntries(y, z)
    ensures Turnover(x, y) == Turnover(x, z)
  {
    hide Sum;
    var keys := x.Keys + y.Keys + z.Keys;
    TurnoverOver(x, y, keys);
    TurnoverOver(x, z, keys);
    forall s | s in keys ensures Change(x, y)(s) == Change(x, z)(s) { assert Get(y, s) == Get(z, s); }
    SumEqual(keys, Change(x, y), Change(x, z));
  }

  /** Moving a fraction t of the way trades that fraction of the distance. */
  lemma TurnoverBlend(x: Weights, y: Weights, t: real)
    requires 0.0 <= t
    ensures Turnover(x, Blend(x, y, t)) == t * Turnover(x, y)
  {
    hide Sum, Change, Turnover;
    var keys := x.Keys + y.Keys;
    var z := Blend(x, y, t);
    assert z.Keys == keys;
    hide Blend;
    TurnoverOver(x, y, keys);
    TurnoverOver(x, z, keys);
    ChangesBlend(keys, x, y, t);
    Halve(Sum(keys, Change(x, z)), t, Sum(keys, Change(x, y)));
  }

  lemma ChangesBlend(keys: set<string>, x: Weights, y: Weights, t: real)
    requires 0.0 <= t && keys <= x.Keys + y.Keys
    ensures Sum(keys, Change(x, Blend(x, y, t))) == t * Sum(keys, Change(x, y))
  {
    hide Sum, Change, Blend;
    forall s | s in keys ensures Change(x, Blend(x, y, t))(s) == t * Change(x, y)(s) {
      ChangeBlend(x, y, t, s);
    }
    SumScaled(keys, t, Change(x, y), Change(x, Blend(x, y, t)));
  }

  lemma Halve(a: real, t: real, b: real)
    requires a == t * b
    ensures a / 2.0 == t * (b / 2.0)
  {
  }

  lemma ChangeAt(x: Weights, y: Weights, s: string)
    ensures Change(x, y)(s) == Abs(Get(y, s) - Get(x, s))
  {
  }

  lemma ChangeBlend(x: Weights, y: Weights, t: real, s: string)
    requires 0.0 <= t && (s in x || s in y)
    ensures Change(x, Blend(x, y, t))(s) == t * Change(x, y)(s)
  {
    hide Blend, Abs, Get, Change;
    BlendAt(x, y, t, s);
    ChangeAt(x, y, s);
    ChangeAt(x, Blend(x, y, t), s);
    AbsTimes(t, Get(y, s) - Get(x, s), Get(Blend(x, y, t), s) - Get(x, s));
  }

  lemma BlendAt(x: Weights, y: Weights, t: real, s: string)
    requires s in x || s in y
    ensures Get(Blend(x, y, t), s) - Get(x, s) == t * (Get(y, s) - Get(x, s))
  {
    assert Get(Blend(x, y, t), s) == Between(Get(x, s), Get(y, s), t);
  }

  lemma AbsTimes(t: real, d: real, td: real)
    requires 0.0 <= t && td == t * d
    ensures Abs(td) == t * Abs(d)
  {
    if d < 0.0 { NonNegative(t, -d); } else { NonNegative(t, d); }
  }

  function BlendFactor(w: Weights, ctx: RiskContext, policy: InvestmentPolicy): real
    requires TradesTooMuch(w, ctx, policy)
  {
    policy.maxTurnover / Turnover(ctx.currentWeights, w)
  }

  lemma BlendFactorBounds(w: Weights, ctx: RiskContext, policy: InvestmentPolicy)
    requires 0.0 <= policy.maxTurnover && TradesTooMuch(w, ctx, policy)
    ensures 0.0 <= BlendFactor(w, ctx, policy) <= 1.0
    ensures BlendFactor(w, ctx, policy) * Turnover(ctx.currentWeights, w) == policy.maxTurnover
  {
    hide Turnover;
    RatioBounds(policy.maxTurnover, Turnover(ctx.currentWeights, w));
  }

  lemma TurnoverCappedOk(w: Weights, ctx: RiskContext, policy: InvestmentPolicy)
    requires 0.0 <= policy.maxTurnover
    ensures Turnover(ctx.currentWeights, TurnoverCapped(w, ctx, policy)) <= policy.maxTurnover
    ensures TradesTooMuch(w, ctx, policy) ==>
              Turnover(ctx.currentWeights, TurnoverCapped(w, ctx, policy)) == policy.maxTurnover
  {
    hide Turnover;
    if TradesTooMuch(w, ctx, policy) {
      var t := BlendFactor(w, ctx, policy);
      var z := Blend(ctx.currentWeights, w, t);
      BlendFactorBounds(w, ctx, policy);
      TurnoverBlend(ctx.currentWeights, w, t);
      NonZeroEntries(z);
      TurnoverSame(ctx.currentWeights, z, NonZero(z));
    } else {
      TurnoverNonNegative(ctx.currentWeights, w);
    }
  }

  /** No cycle trades more than the cap, and one that was blended trades exactly the cap.
      The final gate does not check this. */
  lemma TurnoverWithinCap(proposed: Weights, ctx: RiskContext, policy: InvestmentPolicy, num: Numerics)
    requires 0.0 <= policy.maxTurnover
    ensures var a := Evaluate(proposed, ctx, policy, num);
      && Turnover(ctx.currentWeights, a.weights) <= policy.maxTurnover
      && (a.decision != Rejected && Repair(MaxTurnover, None) in a.repairs ==>
            Turnover(ctx.currentWeights, a.weights) == policy.maxTurnover)
  {
    hide Turnover, Target, Verify, Metrics, MaxDrift, TurnoverCapped, TradesTooMuch, Total;
    var target := Target(proposed, ctx, policy, num).0;
    TurnoverSelf(ctx.currentWeights);
    TurnoverCappedOk(target, ctx, policy);
    TargetLogHasNoTurnover(proposed, ctx, policy, num);
  }

  lemma {:induction false} LoggedCodes(ks: seq<string>, touched: string -> bool, code: ReasonCode)
    ensures forall r :: r in Logged(ks, touched, code) ==> r.code == code && r.symbol.Some?
  {
    if ks != [] { LoggedCodes(ks[..|ks| - 1], touched, code); }
  }

  lemma {:induction false} SectorLogCodes(sectors: seq<string>, exposures: map<string, real>, policy: InvestmentPolicy)
    ensures forall r :: r in SectorLog(sectors, exposures, policy) ==> r.code == MaxSectorWeight
  {
    if sectors != [] { SectorLogCodes(sectors[..|sectors| - 1], exposures, policy); }
  }

  lemma NameLogCodes(w: Weights, ctx: RiskContext, policy: InvestmentPolicy)
    ensures Repair(MaxTurnover, None) !in NameRepairs(w, ctx, policy).1
  {
    hide Logged, SortedKeys;
    var listed := Keeping(w, Uninvestable(ctx));
    var free := Keeping(listed, Blocked(ctx));
    var long := if policy.longOnly then Keeping(free, Short(free)) else free;
    LoggedCodes(SortedKeys(w.Keys), Uninvestable(ctx), UniverseWhitelist);
    LoggedCodes(SortedKeys(listed.Keys), Blocked(ctx), WashSaleWindow);
    LoggedCodes(SortedKeys(free.Keys), Short(free), NoShorting);
    LoggedCodes(SortedKeys(long.Keys), Above(long, policy.maxPositionWeight), MaxPositionWeight);
  }

  lemma TargetLogHasNoTurnover(proposed: Weights, ctx: RiskContext, policy: InvestmentPolicy, num: Numerics)
    ensures Repair(MaxTurnover, None) !in Target(proposed, ctx, policy, num).1
  {
    hide NameRepairs, SectorScaled, SortedKeys, SectorLog, Total, Dot, Variance, UniformFactor, Start;
    var start := Start(proposed, ctx, policy, num);
    var named := NameRepairs(start, ctx, policy).0;
    NameLogCodes(start, ctx, policy);
    SectorLogCodes(SortedKeys(SectorExposures(named, ctx.sectors).Keys), SectorExposures(named, ctx.sectors), policy);
  }

  // ----- recursive feasibility

  lemma TurnoverCappedComplies(w: Weights, ctx: RiskContext, policy: InvestmentPolicy, num: Numerics)
    requires policy.Constructible() && policy.NonNegativeCeilings()
    requires num.ExactRoot() && PositiveSemidefinite(ctx.covariance)
    requires Complies(ctx.currentWeights, ctx, policy, num, TOLERANCE)
    requires Complies(w, ctx, policy, num, TOLERANCE)
    ensures Complies(TurnoverCapped(w, ctx, policy), ctx, policy, num, TOLERANCE)
  {
    hide Complies, Turnover, PositiveSemidefinite;
    if TradesTooMuch(w, ctx, policy) {
      var t := BlendFactor(w, ctx, policy);
      var z := Blend(ctx.currentWeights, w, t);
      BlendFactorBounds(w, ctx, policy);
      CompliesConvex(ctx.currentWeights, w, t, ctx, policy, num, TOLERANCE);
      NonZeroEntries(z);
      SameComplies(z, NonZero(z), ctx, policy, num, TOLERANCE);
    }
  }

  /** Recursive feasibility: from a compliant book, whatever is proposed, the book the
      engine returns is compliant again, and a refusal only ever carries one of the two
      codes that no change of weights can repair. */
  lemma RecursiveFeasibility(proposed: Weights, ctx: RiskContext, policy: InvestmentPolicy, num: Numerics)
    requires policy.Constructible() && policy.NonNegativeCeilings() && policy.longOnly
    requires num.ExactRoot() && PositiveSemidefinite(ctx.covariance)
    requires Complies(ctx.currentWeights, ctx, policy, num, TOLERANCE)
    ensures Complies(Evaluate(proposed, ctx, policy, num).weights, ctx, policy, num, TOLERANCE)
    ensures OnlyTerminal(Evaluate(proposed, ctx, policy, num).violations)
  {
    hide Target, Complies, Turnover, TradesTooMuch, TurnoverCapped, Verify, Metrics, MaxDrift, Total, PositiveSemidefinite;
    var target := Target(proposed, ctx, policy, num).0;
    TargetMeetsLimits(proposed, ctx, policy, num);
    SlackWidens(target, ctx, policy, num, 0.0, TOLERANCE);
    TurnoverCappedComplies(target, ctx, policy, num);
    VerifyExact(TurnoverCapped(target, ctx, policy), ctx, policy, num);
  }

  lemma OneNameCodes(s: string, weight: real, ctx: RiskContext, policy: InvestmentPolicy)
    ensures forall v :: v in NameViolations(s, weight, ctx, policy) ==> v.code != RebalanceCorridor
  {
    hide IsBlocked;
  }

  lemma BookCodes(w: Weights, ctx: RiskContext, policy: InvestmentPolicy, num: Numerics)
    ensures forall v :: v in BookViolations(w, ctx, policy, num) ==> v.code != RebalanceCorridor
  {
    hide Total, Dot, PortfolioVolatility;
  }

  lemma {:induction false} NameCodes(ks: seq<string>, w: Weights, ctx: RiskContext, policy: InvestmentPolicy)
    ensures forall v :: v in AllNameViolations(ks, w, ctx, policy) ==> v.code != RebalanceCorridor
  {
    if ks != [] {
      NameCodes(ks[..|ks| - 1], w, ctx, policy);
      OneNameCodes(ks[|ks| - 1], Get(w, ks[|ks| - 1]), ctx, policy);
      hide NameViolations;
    }
  }

  lemma {:induction false} SectorCodes(sectors: seq<string>, exposures: map<string, real>, policy: InvestmentPolicy)
    ensures forall v :: v in AllSectorViolations(sectors, exposures, policy) ==> v.code != RebalanceCorridor
  {
    if sectors != [] { SectorCodes(sectors[..|sectors| - 1], exposures, policy); }
  }

  /** The gate itself never reports the corridor. */
  lemma NoCorridorCode(w: Weights, ctx: RiskContext, policy: InvestmentPolicy, num: Numerics)
    ensures forall v :: v in Verify(w, ctx, policy, num) ==> v.code != RebalanceCorridor
  {
    var exposures := SectorExposures(w, ctx.sectors);
    NameCodes(SortedKeys(w.Keys), w, ctx, policy);
    SectorCodes(SortedKeys(exposures.Keys), exposures, policy);
    BookCodes(w, ctx, policy, num);
    hide SortedKeys, SectorExposures, AllNameViolations, AllSectorViolations, BookViolations, SafetyFirstRatio;
  }

  /** Cash complies with a policy that can be constructed exactly when its beta and
      volatility ceilings are not below zero, the tolerance apart; a first funding then
      starts the chain. */
  lemma CashCompliesExactly(ctx: RiskContext, policy: InvestmentPolicy, num: Numerics)
    requires policy.Constructible()
    ensures Complies(map[], ctx, policy, num, TOLERANCE)
            <==> -TOLERANCE <= policy.maxPortfolioBeta && -TOLERANCE <= policy.maxAnnualizedVolatility
  {
    var none: Weights := map[];
    assert Total(none) == 0.0 && PortfolioBeta(none, ctx.betas) == 0.0 && PortfolioVolatility(none, ctx.covariance, num) == 0.0;
  }
}
