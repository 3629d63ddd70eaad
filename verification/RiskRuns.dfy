/** Any sequence of decision cycles, each starting from what the book the last one returned
    has become. */
module RiskRuns {
  import opened Sums
  import opened Policies
  import opened RiskEngine
  import opened RiskLimits
  import opened RiskTheorems

  /** One cycle: what is proposed, everything known when it is, and what the prices since
      the last cycle have made of each book. */
  datatype Cycle = Cycle(proposed: Weights, context: RiskContext, drift: Weights -> Weights)

  function At(context: RiskContext, held: Weights): RiskContext {
    context.(currentWeights := held)
  }

  function Assess(cycle: Cycle, held: Weights, policy: InvestmentPolicy, num: Numerics): RiskAssessment {
    Evaluate(cycle.proposed, At(cycle.context, cycle.drift(held)), policy, num)
  }

  function Assessments(cycles: seq<Cycle>, held: Weights, policy: InvestmentPolicy, num: Numerics): seq<RiskAssessment> {
    if cycles == [] then []
    else
      var a := Assess(cycles[0], held, policy, num);
      [a] + Assessments(cycles[1..], a.weights, policy, num)
  }

  /** Compliance does not look at the book currently held. */
  lemma ContextAgrees(w: Weights, ctx: RiskContext, held: Weights, policy: InvestmentPolicy, num: Numerics)
    ensures Complies(w, ctx, policy, num, TOLERANCE) <==> Complies(w, At(ctx, held), policy, num, TOLERANCE)
  {
    hide Sum, Total, Dot, PortfolioVolatility, SectorExposure;
    forall s, x: real ensures NameOk(s, x, ctx, policy, TOLERANCE) <==> NameOk(s, x, At(ctx, held), policy, TOLERANCE) {}
  }

  /** Whatever complied before complies now: neither prices nor the rules' data turned
      against the book. */
  ghost predicate Relaxes(before: RiskContext, now: Cycle, policy: InvestmentPolicy, num: Numerics) {
    && PositiveSemidefinite(now.context.covariance)
    && forall w :: Complies(w, before, policy, num, TOLERANCE) ==> Complies(now.drift(w), now.context, policy, num, TOLERANCE)
  }

  /** Time passing does that: windows close, names are listed, and nothing else changes that
      a rule looks at. Drawdown, expected returns and the risk-free rate are free. */
  lemma TimePassing(before: RiskContext, now: Cycle, policy: InvestmentPolicy, num: Numerics)
    requires var after := now.context;
      && PositiveSemidefinite(after.covariance) && after.covariance == before.covariance
      && after.sectors == before.sectors && after.betas == before.betas
      && before.universe <= after.universe
      && forall s :: IsBlocked(s, after) ==> IsBlocked(s, before)
    requires forall w :: now.drift(w) == w
    ensures Relaxes(before, now, policy, num)
  {
    hide Sum, Total, Dot, PortfolioVolatility, SectorExposure, IsBlocked, PositiveSemidefinite;
    var after := now.context;
    forall w | Complies(w, before, policy, num, TOLERANCE) ensures Complies(w, after, policy, num, TOLERANCE) {
      forall s | s in w
        ensures NameOk(s, w[s], after, policy, TOLERANCE)
        ensures SectorExposure(w, after.sectors, SectorOf(s, after.sectors)) <= policy.maxSectorWeight + TOLERANCE
      {
        assert NameOk(s, w[s], before, policy, TOLERANCE);
        assert SectorExposure(w, before.sectors, SectorOf(s, before.sectors)) <= policy.maxSectorWeight + TOLERANCE;
      }
    }
  }

  ghost predicate Relaxing(before: RiskContext, cycles: seq<Cycle>, policy: InvestmentPolicy, num: Numerics)
    decreases |cycles|
  {
    cycles == [] || (Relaxes(before, cycles[0], policy, num) && Relaxing(cycles[0].context, cycles[1..], policy, num))
  }

  /** Compliance is kept for ever: over any proposals and any prices, in any world that does
      not itself put a compliant book in breach, every book returned complies and every
      refusal is terminal. */
  lemma {:induction false} ComplianceIsKept(cycles: seq<Cycle>, before: RiskContext, held: Weights, policy: InvestmentPolicy, num: Numerics)
    requires policy.Constructible() && policy.NonNegativeCeilings() && policy.longOnly && num.ExactRoot()
    requires Complies(held, before, policy, num, TOLERANCE) && Relaxing(before, cycles, policy, num)
    ensures var run := Assessments(cycles, held, policy, num);
      && |run| == |cycles|
      && forall i :: 0 <= i < |run| ==>
           OnlyTerminal(run[i].violations) && Complies(run[i].weights, cycles[i].context, policy, num, TOLERANCE)
    decreases |cycles|
  {
    hide Complies, Evaluate, PositiveSemidefinite;
    if cycles != [] {
      var here, now := cycles[0].context, cycles[0].drift(held);
      ContextAgrees(now, here, now, policy, num);
      RecursiveFeasibility(cycles[0].proposed, At(here, now), policy, num);
      var a := Evaluate(cycles[0].proposed, At(here, now), policy, num);
      ContextAgrees(a.weights, here, now, policy, num);
      ComplianceIsKept(cycles[1..], here, a.weights, policy, num);
      var rest := Assessments(cycles[1..], a.weights, policy, num);
      forall i | 0 <= i < |cycles|
        ensures var run := [a] + rest;
          OnlyTerminal(run[i].violations) && Complies(run[i].weights, cycles[i].context, policy, num, TOLERANCE)
      {
        if i > 0 { assert cycles[1..][i - 1] == cycles[i]; }
      }
    }
  }

  // ----- books the engine can do nothing for

  /** The weight of a name that is not listed, or above its cap, by more than one cycle may
      trade. A cycle moves a name by at most twice the one-way turnover. */
  ghost predicate OutOfReach(held: Weights, s: string, ctx: RiskContext, policy: InvestmentPolicy) {
    s in held &&
      (held[s] > policy.maxPositionWeight + TOLERANCE + 2.0 * policy.maxTurnover
       || (s !in ctx.universe && (held[s] > 2.0 * policy.maxTurnover || held[s] < -2.0 * policy.maxTurnover)))
  }

  lemma OneNameMoves(x: Weights, y: Weights, s: string)
    requires s in x
    ensures Get(y, s) - Get(x, s) <= 2.0 * Turnover(x, y) && Get(x, s) - Get(y, s) <= 2.0 * Turnover(x, y)
  {
    hide Sum;
    SumAtLeastOne(x.Keys + y.Keys, s, Change(x, y));
  }

  lemma OutOfReachIsRefused(proposed: Weights, ctx: RiskContext, policy: InvestmentPolicy, num: Numerics, s: string)
    requires policy.Constructible() && 0.0 <= policy.maxTurnover
    requires OutOfReach(ctx.currentWeights, s, ctx, policy)
    ensures Evaluate(proposed, ctx, policy, num).decision == Rejected
    ensures Evaluate(proposed, ctx, policy, num).weights == ctx.currentWeights
  {
    hide Evaluate, Verify, Turnover, BookOk, SectorsOk, SafetyFirstOk, TurnoverCapped, Target;
    var a := Evaluate(proposed, ctx, policy, num);
    ReturnedWeights(proposed, ctx, policy, num);
    TurnoverWithinCap(proposed, ctx, policy, num);
    OneNameMoves(ctx.currentWeights, a.weights, s);
    PassedName(a.weights, ctx, policy, num, s);
  }

  lemma PassedName(w: Weights, ctx: RiskContext, policy: InvestmentPolicy, num: Numerics, s: string)
    ensures Verify(w, ctx, policy, num) == [] && s in w ==> NameOk(s, w[s], ctx, policy, TOLERANCE)
  {
    hide Verify, BookOk, SectorsOk, SafetyFirstOk;
    VerifyExact(w, ctx, policy, num);
  }

  /** What the prices alone make of a book, cycle by cycle. */
  function Drifting(cycles: seq<Cycle>, held: Weights): (books: seq<Weights>)
    ensures |books| == |cycles|
  {
    if cycles == [] then [] else [cycles[0].drift(held)] + Drifting(cycles[1..], cycles[0].drift(held))
  }

  lemma SameReach(held: Weights, s: string, ctx: RiskContext, policy: InvestmentPolicy)
    ensures OutOfReach(held, s, ctx, policy) <==> OutOfReach(held, s, At(ctx, held), policy)
  {
  }

  /** Stuck for ever: as long as prices leave such a name out of reach, a book is refused
      whatever is proposed, cycle after cycle, long-only or not, breaker or not, and only
      drifts. */
  lemma {:induction false} StuckForEver(cycles: seq<Cycle>, held: Weights, policy: InvestmentPolicy, num: Numerics, s: string)
    requires policy.Constructible() && 0.0 <= policy.maxTurnover
    requires forall i :: 0 <= i < |cycles| ==> OutOfReach(Drifting(cycles, held)[i], s, cycles[i].context, policy)
    ensures var run := Assessments(cycles, held, policy, num);
      |run| == |cycles| && forall i :: 0 <= i < |run| ==> run[i].decision == Rejected && run[i].weights == Drifting(cycles, held)[i]
    decreases |cycles|
  {
    hide Evaluate, OutOfReach;
    if cycles != [] {
      var now := cycles[0].drift(held);
      var here := At(cycles[0].context, now);
      assert OutOfReach(Drifting(cycles, held)[0], s, cycles[0].context, policy);
      SameReach(now, s, cycles[0].context, policy);
      OutOfReachIsRefused(cycles[0].proposed, here, policy, num, s);
      forall i | 0 <= i < |cycles[1..]| ensures OutOfReach(Drifting(cycles[1..], now)[i], s, cycles[1..][i].context, policy) {
        assert cycles[1..][i] == cycles[i + 1] && Drifting(cycles[1..], now)[i] == Drifting(cycles, held)[i + 1];
      }
      StuckForEver(cycles[1..], now, policy, num, s);
    }
  }

  /** A refusal returns the book held, so with prices at rest the same proposal in the same
      context is refused again, for the same reasons, any number of times. */
  lemma {:induction false} RefusalRepeats(cycles: seq<Cycle>, c: Cycle, held: Weights, policy: InvestmentPolicy, num: Numerics)
    requires forall i :: 0 <= i < |cycles| ==> cycles[i] == c
    requires c.drift(held) == held
    requires Evaluate(c.proposed, At(c.context, held), policy, num).decision == Rejected
    ensures var run := Assessments(cycles, held, policy, num);
      |run| == |cycles| && forall i :: 0 <= i < |run| ==> run[i] == Evaluate(c.proposed, At(c.context, held), policy, num)
    decreases |cycles|
  {
    hide Evaluate;
    if cycles != [] {
      ReturnedWeights(c.proposed, At(c.context, held), policy, num);
      forall i | 0 <= i < |cycles[1..]| ensures cycles[1..][i] == c { assert cycles[1..][i] == cycles[i + 1]; }
      RefusalRepeats(cycles[1..], c, held, policy, num);
    }
  }
}
