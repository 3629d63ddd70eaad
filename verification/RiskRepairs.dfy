/** The loops of src/risk/engine.py, updating the weights and the lists of violations and
    repairs step by step, proved to compute the functions of RiskEngine. */
module RiskRepairs {
  import opened Arithmetic
  import opened Options
  import opened Ordering
  import opened Sums
  import opened Policies
  import opened RiskEngine

  // ----- measurement

  method MeasureVolatility(w: Weights, c: Covariance, num: Numerics) returns (volatility: real)
    ensures volatility == PortfolioVolatility(w, c, num)
  {
    hide Sum, Seen, SortedKeys, RowSum;
    var variance := 0.0;
    var ks := SortedKeys(w.Keys);
    ghost var rows := RowSum(w.Keys, Entry(w), Entry(w), c);
    SeenEnds(w.Keys);
    SumZero({}, rows);
    for i := 0 to |ks|
      invariant variance == Sum(Seen(ks, i), rows)
    {
      variance := AddRow(variance, ks[i], w, c);
      SeenStep(ks, i);
      SumAdd(Seen(ks, i), ks[i], rows);
    }
    volatility := if variance <= 0.0 then 0.0 else num.root(variance);
  }

  /** The inner loop: one row of the quadratic form. */
  method AddRow(start: real, a: string, w: Weights, c: Covariance) returns (variance: real)
    requires a in w
    ensures variance == start + RowSum(w.Keys, Entry(w), Entry(w), c)(a)
  {
    hide Sum, Seen, SortedKeys;
    variance := start;
    var ks := SortedKeys(w.Keys);
    ghost var cells := CellProduct(Entry(w), Entry(w), c, a);
    SeenEnds(w.Keys);
    SumZero({}, cells);
    for j := 0 to |ks|
      invariant variance == start + Sum(Seen(ks, j), cells)
    {
      SeenStep(ks, j);
      SumAdd(Seen(ks, j), ks[j], cells);
      variance := variance + w[a] * w[ks[j]] * Cell(c, a, ks[j]);
    }
  }

  /** What the dictionary of totals holds once the names in `done` have been added. */
  function PartialTotals(w: Weights, done: set<string>, sectors: map<string, string>): map<string, real> {
    map sector | sector in (set s | s in done :: SectorOf(s, sectors)) :: Sum(InSector(done, sectors, sector), Entry(w))
  }

  lemma PartialTotalsStep(w: Weights, done: set<string>, k: string, sectors: map<string, string>)
    requires k in w && k !in done
    ensures var sector, totals := SectorOf(k, sectors), PartialTotals(w, done, sectors);
            PartialTotals(w, done + {k}, sectors) == totals[sector := Get(totals, sector) + w[k]]
  {
    hide Sum;
    var sector := SectorOf(k, sectors);
    var members := InSector(done, sectors, sector);
    assert InSector(done + {k}, sectors, sector) == members + {k};
    SumAdd(members, k, Entry(w));
    if members == {} {
      SumZero({}, Entry(w));
    } else {
      var m := Least(members);
      assert m in done && SectorOf(m, sectors) == sector;
    }
    forall e | e != sector ensures InSector(done + {k}, sectors, e) == InSector(done, sectors, e) {}
  }

  lemma AllTotals(w: Weights, sectors: map<string, string>)
    ensures PartialTotals(w, {}, sectors) == map[]
    ensures PartialTotals(w, w.Keys, sectors) == SectorExposures(w, sectors)
  {
    hide Sum;
    forall e ensures InSector(w.Keys, sectors, e) == SectorMembers(w, sectors, e) {}
  }

  method MeasureSectors(w: Weights, sectors: map<string, string>) returns (totals: map<string, real>)
    ensures totals == SectorExposures(w, sectors)
  {
    hide Sum, PartialTotals, Seen, SortedKeys, SectorExposures;
    totals := map[];
    var ks := SortedKeys(w.Keys);
    SeenEnds(w.Keys);
    AllTotals(w, sectors);
    for i := 0 to |ks|
      invariant totals == PartialTotals(w, Seen(ks, i), sectors)
    {
      SeenStep(ks, i);
      PartialTotalsStep(w, Seen(ks, i), ks[i], sectors);
      var sector := SectorOf(ks[i], sectors);
      totals := totals[sector := Get(totals, sector) + w[ks[i]]];
    }
  }

  // ----- verification

  lemma AppendWhen(xs: seq<Violation>, condition: bool, v: Violation)
    ensures xs + When(condition, v) == if condition then xs + [v] else xs
    ensures [] + When(condition, v) == When(condition, v)
  {
  }

  method VerifyName(symbol: string, weight: real, ctx: RiskContext, policy: InvestmentPolicy) returns (violations: seq<Violation>)
    ensures violations == NameViolations(symbol, weight, ctx, policy)
  {
    violations := [];
    if policy.longOnly && weight < -TOLERANCE {
      violations := violations + [Violation(NoShorting, Some(symbol), Some(weight), Some(0.0))];
    }
    if weight > policy.maxPositionWeight + TOLERANCE {
      violations := violations + [Violation(MaxPositionWeight, Some(symbol), Some(weight), Some(policy.maxPositionWeight))];
    }
    if symbol !in ctx.universe {
      violations := violations + [Violation(UniverseWhitelist, Some(symbol), None, None)];
    }
    if weight > TOLERANCE && IsBlocked(symbol, ctx) {
      violations := violations + [Violation(WashSaleWindow, Some(symbol), Some(weight), None)];
    }
  }

  method VerifyNames(w: Weights, ctx: RiskContext, policy: InvestmentPolicy) returns (violations: seq<Violation>)
    ensures violations == AllNameViolations(SortedKeys(w.Keys), w, ctx, policy)
  {
    hide SortedKeys, NameViolations;
    violations := [];
    var ks := SortedKeys(w.Keys);
    for i := 0 to |ks|
      invariant violations == AllNameViolations(ks[..i], w, ctx, policy)
    {
      assert ks[..i + 1][..i] == ks[..i];
      var found := VerifyName(ks[i], w[ks[i]], ctx, policy);
      violations := violations + found;
    }
    assert ks[..|ks|] == ks;
  }

  method VerifySectors(w: Weights, ctx: RiskContext, policy: InvestmentPolicy) returns (violations: seq<Violation>)
    ensures var exposures := SectorExposures(w, ctx.sectors);
            violations == AllSectorViolations(SortedKeys(exposures.Keys), exposures, policy)
  {
    hide SortedKeys, SectorExposures;
    violations := [];
    var exposures := MeasureSectors(w, ctx.sectors);
    var sectors := SortedKeys(exposures.Keys);
    for i := 0 to |sectors|
      invariant violations == AllSectorViolations(sectors[..i], exposures, policy)
    {
      assert sectors[..i + 1][..i] == sectors[..i];
      if exposures[sectors[i]] > policy.maxSectorWeight + TOLERANCE {
        violations := violations + [Violation(MaxSectorWeight, None, Some(exposures[sectors[i]]), Some(policy.maxSectorWeight))];
      }
    }
    assert sectors[..|sectors|] == sectors;
  }

  method VerifyBook(w: Weights, ctx: RiskContext, policy: InvestmentPolicy, num: Numerics) returns (violations: seq<Violation>)
    ensures violations == Verify(w, ctx, policy, num)
  {
    hide SortedKeys, SectorExposures, AllNameViolations, AllSectorViolations, BookViolations, SafetyFirstRatio;
    violations := VerifyNames(w, ctx, policy);
    var more := VerifySectors(w, ctx, policy);
    violations := violations + more;
    more := VerifyTotals(w, ctx, policy, num);
    violations := violations + more;
    var ratio := SafetyFirstRatio(w, ctx, policy, num);
    if ratio.Some? && ratio.value < policy.safetyFirst.minimumRatio {
      violations := violations + [Violation(SafetyFirstThreshold, None, Some(ratio.value), Some(policy.safetyFirst.minimumRatio))];
    }
  }

  method VerifyTotals(w: Weights, ctx: RiskContext, policy: InvestmentPolicy, num: Numerics) returns (violations: seq<Violation>)
    ensures violations == BookViolations(w, ctx, policy, num)
  {
    hide Total, PortfolioBeta, PortfolioVolatility, When;
    violations := [];
    var gross := Total(w);
    var breach := Violation(NoLeverage, None, Some(gross), Some(policy.maxGrossExposure));
    AppendWhen(violations, gross > policy.maxGrossExposure + TOLERANCE, breach);
    if gross > policy.maxGrossExposure + TOLERANCE {
      violations := violations + [breach];
    }
    var cash := 1.0 - gross;
    breach := Violation(MinCashBuffer, None, Some(cash), Some(policy.minCashBuffer));
    AppendWhen(violations, cash < policy.minCashBuffer - TOLERANCE, breach);
    if cash < policy.minCashBuffer - TOLERANCE {
      violations := violations + [breach];
    }
    var beta := PortfolioBeta(w, ctx.betas);
    breach := Violation(MaxPortfolioBeta, None, Some(beta), Some(policy.maxPortfolioBeta));
    AppendWhen(violations, beta > policy.maxPortfolioBeta + TOLERANCE, breach);
    if beta > policy.maxPortfolioBeta + TOLERANCE {
      violations := violations + [breach];
    }
    var volatility := MeasureVolatility(w, ctx.covariance, num);
    breach := Violation(MaxVolatility, None, Some(volatility), Some(policy.maxAnnualizedVolatility));
    AppendWhen(violations, volatility > policy.maxAnnualizedVolatility + TOLERANCE, breach);
    if volatility > policy.maxAnnualizedVolatility + TOLERANCE {
      violations := violations + [breach];
    }
  }

  // ----- repairs

  /** The weights when the names in `done` have been visited by a deleting loop ... */
  function Removed(w: Weights, done: set<string>, drop: string -> bool): Weights {
    map s | s in w && !(s in done && drop(s)) :: w[s]
  }

  /** ... and by an updating loop that gives each name it visits its value in `f`. */
  function Updated(w: Weights, done: set<string>, f: Vector): Weights {
    map s | s in w :: if s in done then f(s) else w[s]
  }

  lemma RemovedStep(w: Weights, done: set<string>, k: string, drop: string -> bool)
    requires k in w && k !in done
    ensures Removed(w, done + {k}, drop) == if drop(k) then Removed(w, done, drop) - {k} else Removed(w, done, drop)
  {
  }

  lemma RemovedEnds(w: Weights, drop: string -> bool)
    ensures Removed(w, {}, drop) == w && Removed(w, w.Keys, drop) == Keeping(w, drop)
  {
  }

  lemma UpdatedStep(w: Weights, done: set<string>, k: string, f: Vector)
    requires k in w && k !in done
    ensures k in Updated(w, done, f) && Updated(w, done, f)[k] == w[k]
    ensures Updated(w, done + {k}, f) == if f(k) == w[k] then Updated(w, done, f) else Updated(w, done, f)[k := f(k)]
  {
  }

  lemma UpdatedEnds(w: Weights, f: Vector)
    ensures Updated(w, {}, f) == w
    ensures Updated(w, w.Keys, f) == map s | s in w :: f(s)
  {
  }

  lemma LoggedStep(ks: seq<string>, i: nat, touched: string -> bool, code: ReasonCode)
    requires i < |ks|
    ensures Logged(ks[..i + 1], touched, code)
            == Logged(ks[..i], touched, code) + (if touched(ks[i]) then [Repair(code, Some(ks[i]))] else [])
  {
    assert ks[..i + 1][..i] == ks[..i];
  }

  /** The three per-name deletions share one loop: walk the names in order, drop and log. */
  method DeleteNames(w: Weights, drop: string -> bool, code: ReasonCode) returns (weights: Weights, repairs: seq<Repair>)
    ensures weights == Keeping(w, drop)
    ensures repairs == LoggedOver(w, drop, code)
  {
    weights, repairs := w, [];
    var ks := SortedKeys(w.Keys);
    SeenEnds(w.Keys);
    RemovedEnds(w, drop);
    assert ks[..0] == [] && ks[..|ks|] == ks && Logged([], drop, code) == [];
    hide Removed, Keeping, Seen, SortedKeys, Logged;
    for i := 0 to |ks|
      invariant weights == Removed(w, Seen(ks, i), drop)
      invariant repairs == Logged(ks[..i], drop, code)
    {
      SeenStep(ks, i);
      RemovedStep(w, Seen(ks, i), ks[i], drop);
      LoggedStep(ks, i, drop, code);
      if drop(ks[i]) {
        weights := weights - {ks[i]};
        repairs := repairs + [Repair(code, Some(ks[i]))];
      }
    }
  }

  lemma CapEnds(w: Weights, cap: real)
    ensures Updated(w, {}, CapValue(w, cap)) == w
    ensures Updated(w, w.Keys, CapValue(w, cap)) == Capped(w, cap)
  {
  }

  function CapValue(w: Weights, cap: real): Vector {
    s => if Get(w, s) > cap then cap else Get(w, s)
  }

  method CapNames(w: Weights, cap: real) returns (weights: Weights, repairs: seq<Repair>)
    ensures weights == Capped(w, cap)
    ensures repairs == LoggedOver(w, Above(w, cap), MaxPositionWeight)
  {
    hide Capped, Updated, Seen, SortedKeys;
    weights, repairs := w, [];
    var ks := SortedKeys(w.Keys);
    SeenEnds(w.Keys);
    CapEnds(w, cap);
    assert ks[..0] == [] && ks[..|ks|] == ks && Logged([], Above(w, cap), MaxPositionWeight) == [];
    hide Logged;
    for i := 0 to |ks|
      invariant weights == Updated(w, Seen(ks, i), CapValue(w, cap))
      invariant repairs == Logged(ks[..i], Above(w, cap), MaxPositionWeight)
    {
      SeenStep(ks, i);
      UpdatedStep(w, Seen(ks, i), ks[i], CapValue(w, cap));
      LoggedStep(ks, i, Above(w, cap), MaxPositionWeight);
      if weights[ks[i]] > cap {
        repairs := repairs + [Repair(MaxPositionWeight, Some(ks[i]))];
        weights := weights[ks[i] := cap];
      }
    }
  }

  lemma TimesAt(w: Weights, s: string, scale: real, x: real)
    requires x == Get(w, s)
    ensures x * scale == Get(w, s) * scale == ScaleValue(w, scale)(s)
  {
  }

  function ScaleValue(w: Weights, scale: real): Vector {
    s => Get(w, s) * scale
  }

  lemma ScaleEnds(w: Weights, scale: real)
    ensures Updated(w, {}, ScaleValue(w, scale)) == w
    ensures Updated(w, w.Keys, ScaleValue(w, scale)) == Scale(scale, w)
  {
    var z := Updated(w, w.Keys, ScaleValue(w, scale));
    forall s | s in w ensures z[s] == Scale(scale, w)[s] {
      Commute(w[s], scale);
    }
    assert z.Keys == Scale(scale, w).Keys;
  }

  lemma Commute(x: real, y: real)
    ensures x * y == y * x
  {
  }

  function SectorValue(w: Weights, sectors: map<string, string>, sector: string, scale: real): Vector {
    s => if SectorOf(s, sectors) == sector then Get(w, s) * scale else Get(w, s)
  }

  function OneSectorScaled(w: Weights, sectors: map<string, string>, sector: string, scale: real): Weights {
    map s | s in w :: SectorValue(w, sectors, sector, scale)(s)
  }

  method ScaleOneSector(w: Weights, sectors: map<string, string>, sector: string, scale: real) returns (weights: Weights)
    ensures weights == OneSectorScaled(w, sectors, sector, scale)
  {
    weights := w;
    var ks := SortedKeys(w.Keys);
    SeenEnds(w.Keys);
    UpdatedEnds(w, SectorValue(w, sectors, sector, scale));
    hide Updated, Seen, SortedKeys;
    for i := 0 to |ks|
      invariant weights == Updated(w, Seen(ks, i), SectorValue(w, sectors, sector, scale))
    {
      SeenStep(ks, i);
      UpdatedStep(w, Seen(ks, i), ks[i], SectorValue(w, sectors, sector, scale));
      TimesAt(w, ks[i], scale, weights[ks[i]]);
      if SectorOf(ks[i], sectors) == sector {
        var scaled := weights[ks[i]] * scale;
        assert scaled == SectorValue(w, sectors, sector, scale)(ks[i]);
        weights := weights[ks[i] := scaled];
      }
    }
  }

  /** The factor every name ends with, 1 outside the sectors in `done`. */
  function FactorDone(w: Weights, done: set<string>, ctx: RiskContext, policy: InvestmentPolicy): Vector {
    s => if SectorOf(s, ctx.sectors) in done
         then SectorFactor(SectorExposure(w, ctx.sectors, SectorOf(s, ctx.sectors)), policy) else 1.0
  }

  /** The weights once the sectors in `done` have been scaled. */
  function AfterSectors(w: Weights, done: set<string>, ctx: RiskContext, policy: InvestmentPolicy): Weights {
    map s | s in w :: Times(w[s], FactorDone(w, done, ctx, policy)(s))
  }

  lemma AfterSectorsStep(w: Weights, done: set<string>, sector: string, ctx: RiskContext, policy: InvestmentPolicy)
    requires sector !in done
    ensures var exposure, before := SectorExposure(w, ctx.sectors, sector), AfterSectors(w, done, ctx, policy);
      && (SectorOver(exposure, policy) ==>
            AfterSectors(w, done + {sector}, ctx, policy)
            == OneSectorScaled(before, ctx.sectors, sector, policy.maxSectorWeight / exposure))
      && (!SectorOver(exposure, policy) ==> AfterSectors(w, done + {sector}, ctx, policy) == before)
  {
    hide SectorExposure, SectorOver, SectorFactor, SectorValue, FactorDone;
    var exposure := SectorExposure(w, ctx.sectors, sector);
    var before, after := AfterSectors(w, done, ctx, policy), AfterSectors(w, done + {sector}, ctx, policy);
    assert before.Keys == w.Keys && after.Keys == w.Keys;
    FactorWhenOver(exposure, policy);
    forall s | s in w
      ensures SectorOver(exposure, policy) ==> after[s] == SectorValue(before, ctx.sectors, sector, policy.maxSectorWeight / exposure)(s)
      ensures !SectorOver(exposure, policy) ==> after[s] == before[s]
    {
      FactorStep(w, done, sector, ctx, policy, s);
      SectorStep(w[s], FactorDone(w, done, ctx, policy)(s), FactorDone(w, done + {sector}, ctx, policy)(s),
                 before, ctx.sectors, sector, SectorFactor(exposure, policy), s);
    }
  }

  lemma SectorStep(x: real, f: real, g: real, before: Weights, sectors: map<string, string>, sector: string, scale: real, s: string)
    requires s in before && before[s] == x * f
    requires g == if SectorOf(s, sectors) == sector then scale else f
    requires SectorOf(s, sectors) == sector ==> f == 1.0
    ensures x * g == SectorValue(before, sectors, sector, scale)(s)
    ensures scale == 1.0 ==> x * g == before[s]
  {
  }

  lemma FactorStep(w: Weights, done: set<string>, sector: string, ctx: RiskContext, policy: InvestmentPolicy, s: string)
    requires sector !in done
    ensures FactorDone(w, done + {sector}, ctx, policy)(s)
            == if SectorOf(s, ctx.sectors) == sector then SectorFactor(SectorExposure(w, ctx.sectors, sector), policy)
               else FactorDone(w, done, ctx, policy)(s)
    ensures SectorOf(s, ctx.sectors) == sector ==> FactorDone(w, done, ctx, policy)(s) == 1.0
  {
  }

  lemma FactorWhenOver(exposure: real, policy: InvestmentPolicy)
    ensures SectorOver(exposure, policy) ==> exposure > 0.0 && SectorFactor(exposure, policy) == policy.maxSectorWeight / exposure
    ensures !SectorOver(exposure, policy) ==> SectorFactor(exposure, policy) == 1.0
  {
  }

  lemma AfterAllSectors(w: Weights, ctx: RiskContext, policy: InvestmentPolicy)
    ensures AfterSectors(w, {}, ctx, policy) == w
    ensures AfterSectors(w, SectorExposures(w, ctx.sectors).Keys, ctx, policy) == SectorScaled(w, ctx, policy)
  {
    hide SectorExposure, SectorFactor;
    var all := SectorExposures(w, ctx.sectors).Keys;
    var first, last := AfterSectors(w, {}, ctx, policy), AfterSectors(w, all, ctx, policy);
    forall s | s in w ensures Times(w[s], 1.0) == w[s] {}
    hide Times;
    forall s | s in w ensures first[s] == w[s] && last[s] == SectorScaled(w, ctx, policy)[s] {
      assert SectorOf(s, ctx.sectors) in all;
      assert FactorDone(w, {}, ctx, policy)(s) == 1.0;
    }
    assert first.Keys == w.Keys && last.Keys == w.Keys && SectorScaled(w, ctx, policy).Keys == w.Keys;
    hide AfterSectors, SectorScaled, FactorDone;
  }

  lemma ExposureAt(w: Weights, sectors: map<string, string>, sector: string)
    requires sector in SectorExposures(w, sectors)
    ensures SectorExposures(w, sectors)[sector] == SectorExposure(w, sectors, sector)
  {
  }

  lemma SectorLogStep(sectors: seq<string>, i: nat, exposures: map<string, real>, policy: InvestmentPolicy)
    requires i < |sectors|
    ensures SectorLog(sectors[..i + 1], exposures, policy)
            == SectorLog(sectors[..i], exposures, policy)
               + (if SectorOver(Get(exposures, sectors[i]), policy) then [Repair(MaxSectorWeight, None)] else [])
  {
    assert sectors[..i + 1][..i] == sectors[..i];
  }

  /** One sector after another, every exposure measured before the first is scaled. */
  method ScaleSectors(w: Weights, ctx: RiskContext, policy: InvestmentPolicy) returns (weights: Weights, repairs: seq<Repair>)
    ensures weights == SectorScaled(w, ctx, policy)
    ensures var exposures := SectorExposures(w, ctx.sectors);
            repairs == SectorLog(SortedKeys(exposures.Keys), exposures, policy)
  {
    hide SectorExposure, SectorExposures, AfterSectors, OneSectorScaled, Seen, SortedKeys, SectorScaled;
    weights, repairs := w, [];
    var exposures := MeasureSectors(w, ctx.sectors);
    var sectors := SortedKeys(exposures.Keys);
    assert sectors[..0] == [] && sectors[..|sectors|] == sectors;
    assert SectorLog([], exposures, policy) == [];
    hide SectorLog;
    SeenEnds(exposures.Keys);
    AfterAllSectors(w, ctx, policy);
    for i := 0 to |sectors|
      invariant weights == AfterSectors(w, Seen(sectors, i), ctx, policy)
      invariant repairs == SectorLog(sectors[..i], exposures, policy)
    {
      var sector, exposure := sectors[i], exposures[sectors[i]];
      ExposureAt(w, ctx.sectors, sector);
      SeenStep(sectors, i);
      SectorLogStep(sectors, i, exposures, policy);
      AfterSectorsStep(w, Seen(sectors, i), sector, ctx, policy);
      if SectorOver(exposure, policy) {
        weights := ScaleOneSector(weights, ctx.sectors, sector, policy.maxSectorWeight / exposure);
        repairs := repairs + [Repair(MaxSectorWeight, None)];
      }
    }
  }

  method ChooseCeiling(ctx: RiskContext, policy: InvestmentPolicy, num: Numerics) returns (ceiling: real)
    ensures ceiling == VolatilityCeiling(ctx, policy, num)
  {
    hide PortfolioVolatility;
    ceiling := policy.maxAnnualizedVolatility;
    if BreakerTripped(ctx, policy) && ctx.currentWeights != map[] {
      var currentVolatility := MeasureVolatility(ctx.currentWeights, ctx.covariance, num);
      if currentVolatility > 0.0 {
        ceiling := Min(ceiling, currentVolatility);
      }
    }
  }

  /** The ceilings are checked one after another, keeping the tightest factor. */
  method ChooseFactor(w: Weights, ctx: RiskContext, policy: InvestmentPolicy, num: Numerics)
    returns (scale: real, reasons: seq<Repair>)
    requires Total(w) > 0.0
    ensures scale == UniformFactor(w, ctx, policy, num)
    ensures reasons == UniformReasons(w, ctx, policy, num)
  {
    hide Total, PortfolioBeta, PortfolioVolatility, VolatilityCeiling;
    scale, reasons := 1.0, [];
    var gross := Total(w);
    var exposureCeiling := policy.EffectiveExposureCeiling();
    if gross > exposureCeiling {
      scale := Min(scale, exposureCeiling / gross);
      reasons := reasons + [Repair(if policy.maxGrossExposure <= 1.0 - policy.minCashBuffer then NoLeverage else MinCashBuffer, None)];
    }
    assert scale == Ratio(exposureCeiling, gross);

    var beta := PortfolioBeta(w, ctx.betas);
    if beta > policy.maxPortfolioBeta && beta > 0.0 {
      scale := Min(scale, policy.maxPortfolioBeta / beta);
      reasons := reasons + [Repair(MaxPortfolioBeta, None)];
    }
    assert scale == Min(Ratio(exposureCeiling, gross), Ratio(policy.maxPortfolioBeta, beta));

    var volatilityCeiling := ChooseCeiling(ctx, policy, num);
    var volatility := MeasureVolatility(w, ctx.covariance, num);
    if volatility > volatilityCeiling && volatility > 0.0 {
      scale := Min(scale, volatilityCeiling / volatility);
      reasons := reasons + [Repair(MaxVolatility, None)];
    }
  }

  method ScaleUniformly(w: Weights, ctx: RiskContext, policy: InvestmentPolicy, num: Numerics)
    returns (weights: Weights, repairs: seq<Repair>)
    ensures weights == UniformlyScaled(w, ctx, policy, num)
    ensures repairs == UniformLog(w, ctx, policy, num)
  {
    hide Total, UniformReasons, Ratio, PortfolioBeta, PortfolioVolatility, VolatilityCeiling, Scale;
    weights, repairs := w, [];
    if Total(w) > 0.0 {
      var scale, reasons := ChooseFactor(w, ctx, policy, num);
      if scale < 1.0 {
        weights := ScaleAll(w, scale);
        repairs := reasons;
      }
    }
  }

  method ScaleAll(w: Weights, scale: real) returns (weights: Weights)
    ensures weights == Scale(scale, w)
  {
    weights := w;
    var ks := SortedKeys(w.Keys);
    SeenEnds(w.Keys);
    ScaleEnds(w, scale);
    hide Scale, Updated, Seen, SortedKeys;
    for i := 0 to |ks|
      invariant weights == Updated(w, Seen(ks, i), ScaleValue(w, scale))
    {
      SeenStep(ks, i);
      UpdatedStep(w, Seen(ks, i), ks[i], ScaleValue(w, scale));
      TimesAt(w, ks[i], scale, weights[ks[i]]);
      var scaled := weights[ks[i]] * scale;
      assert scaled == ScaleValue(w, scale)(ks[i]);
      weights := weights[ks[i] := scaled];
    }
  }

  /** The non-zero entries of `z` among the names in `done`. */
  function Collected(z: Weights, done: set<string>): Weights {
    map s | s in done && s in z && z[s] != 0.0 :: z[s]
  }

  lemma CollectedStep(z: Weights, done: set<string>, k: string)
    requires k in z && k !in done
    ensures Collected(z, done + {k}) == if z[k] != 0.0 then Collected(z, done)[k := z[k]] else Collected(z, done)
  {
  }

  lemma BlendEnds(current: Weights, target: Weights, blend: real)
    ensures var z := Blend(current, target, blend);
      && z.Keys == current.Keys + target.Keys
      && (forall s :: s in z ==> z[s] == Between(Get(current, s), Get(target, s), blend))
      && Collected(z, {}) == map[] && Collected(z, z.Keys) == NonZero(z)
  {
    hide Between;
  }

  method BlendToward(current: Weights, target: Weights, blend: real) returns (blended: Weights)
    ensures blended == NonZero(Blend(current, target, blend))
  {
    blended := map[];
    var ks := SortedKeys(current.Keys + target.Keys);
    SeenEnds(current.Keys + target.Keys);
    ghost var z := Blend(current, target, blend);
    BlendEnds(current, target, blend);
    hide Collected, NonZero, Seen, SortedKeys, Between, Blend;
    for i := 0 to |ks|
      invariant blended == Collected(z, Seen(ks, i))
    {
      SeenStep(ks, i);
      CollectedStep(z, Seen(ks, i), ks[i]);
      var value := Between(Get(current, ks[i]), Get(target, ks[i]), blend);
      if value != 0.0 {
        blended := blended[ks[i] := value];
      }
    }
  }

  method RepairNames(w: Weights, ctx: RiskContext, policy: InvestmentPolicy) returns (weights: Weights, repairs: seq<Repair>)
    ensures (weights, repairs) == NameRepairs(w, ctx, policy)
  {
    hide Keeping, LoggedOver, Capped;
    var log;
    weights, repairs := DeleteNames(w, Uninvestable(ctx), UniverseWhitelist);
    weights, log := DeleteNames(weights, Blocked(ctx), WashSaleWindow);
    repairs := repairs + log;
    if policy.longOnly {
      weights, log := DeleteNames(weights, Short(weights), NoShorting);
      repairs := repairs + log;
    } else {
      assert repairs + [] == repairs;
    }
    weights, log := CapNames(weights, policy.maxPositionWeight);
    repairs := repairs + log;
  }

  method BuildTarget(proposed: Weights, ctx: RiskContext, policy: InvestmentPolicy, num: Numerics)
    returns (weights: Weights, repairs: seq<Repair>)
    ensures (weights, repairs) == Target(proposed, ctx, policy, num)
  {
    hide SortedKeys, NameRepairs, SectorScaled, SectorLog, UniformlyScaled, UniformLog, MinimumVariance, SectorExposures, NonZero;
    repairs := [];
    weights := NonZero(proposed);
    if BreakerTripped(ctx, policy) {
      weights := MinimumVariance(ctx, num);
      repairs := [Repair(DrawdownCircuitBreaker, None)];
    }
    var log;
    weights, log := RepairNames(weights, ctx, policy);
    repairs := repairs + log;
    weights, log := ScaleSectors(weights, ctx, policy);
    repairs := repairs + log;
    weights, log := ScaleUniformly(weights, ctx, policy, num);
    repairs := repairs + log;
  }

  /** The engine, stage by stage: repairs, corridor, turnover, gate. */
  method EvaluateProposal(proposed: Weights, ctx: RiskContext, policy: InvestmentPolicy, num: Numerics)
    returns (assessment: RiskAssessment)
    ensures assessment == Evaluate(proposed, ctx, policy, num)
  {
    hide Sum, Target, Verify, Metrics, Turnover, MaxDrift, Blend, Total;
    var weights, repairs := BuildTarget(proposed, ctx, policy, num);
    assert (weights, repairs) == Target(proposed, ctx, policy, num);

    var drift := MaxDrift(ctx.currentWeights, weights);
    if ctx.currentWeights != map[] && drift <= policy.corridorAbsolute {
      return RiskAssessment(Rejected, ctx.currentWeights, 1.0 - Total(ctx.currentWeights),
                            [Violation(RebalanceCorridor, None, Some(drift), Some(policy.corridorAbsolute))],
                            repairs, Metrics(weights, ctx, policy, num), policy.minTradeNotional);
    }

    var traded := Turnover(ctx.currentWeights, weights);
    if traded > policy.maxTurnover && traded > 0.0 {
      weights := BlendToward(ctx.currentWeights, weights, policy.maxTurnover / traded);
      repairs := repairs + [Repair(MaxTurnover, None)];
    }

    var violations := VerifyBook(weights, ctx, policy, num);
    var metrics := Metrics(weights, ctx, policy, num);
    if violations != [] {
      return RiskAssessment(Rejected, ctx.currentWeights, 1.0 - Total(ctx.currentWeights), violations, repairs,
                            metrics, policy.minTradeNotional);
    }
    return RiskAssessment(if repairs != [] then Modified else Approved, weights, 1.0 - Total(weights), [], repairs,
                          metrics, policy.minTradeNotional);
  }
}
