/** What "compliant" means, independently of the order in which `Verify` looks, and how
    each kind of repair acts on it. `slack` is 0 for what the repairs achieve and
    TOLERANCE for what the gate accepts. */
module RiskLimits {
  import opened Arithmetic
  import opened Options
  import opened Ordering
  import opened Sums
  import opened Policies
  import opened RiskEngine

  // ----- measures depend on the entries only

  ghost predicate SameEntries(x: Weights, y: Weights) {
    forall s {:trigger Get(x, s)} {:trigger Get(y, s)} :: Get(x, s) == Get(y, s)
  }

  lemma NonZeroEntries(w: Weights)
    ensures SameEntries(w, NonZero(w))
  {
  }

  lemma SectorExposureOver(w: Weights, sectors: map<string, string>, sector: string, keys: set<string>)
    requires w.Keys <= keys
    ensures SectorExposure(w, sectors, sector) == Sum(InSector(keys, sectors, sector), Entry(w))
  {
    SumWiden(SectorMembers(w, sectors, sector), InSector(keys, sectors, sector), Entry(w));
  }

  lemma SameEntryVectors(x: Weights, y: Weights)
    requires SameEntries(x, y)
    ensures forall s :: Entry(x)(s) == Entry(y)(s)
  {
    forall s ensures Entry(x)(s) == Entry(y)(s) { assert Get(x, s) == Get(y, s); }
  }

  lemma SameLinear(x: Weights, y: Weights, d: map<string, real>)
    requires SameEntries(x, y)
    ensures Total(x) == Total(y) && Dot(x, d) == Dot(y, d)
  {
    hide Sum;
    var keys, f, g := x.Keys + y.Keys, Entry(x), Entry(y);
    SameEntryVectors(x, y);
    TotalOver(x, keys);
    TotalOver(y, keys);
    SumEqual(keys, f, g);
    DotOver(x, d, keys);
    DotOver(y, d, keys);
    SumEqual(keys, Product(f, Entry(d)), Product(g, Entry(d)));
  }

  lemma SameSector(x: Weights, y: Weights, sectors: map<string, string>, sector: string)
    requires SameEntries(x, y)
    ensures SectorExposure(x, sectors, sector) == SectorExposure(y, sectors, sector)
  {
    hide Sum;
    var keys := x.Keys + y.Keys;
    SameEntryVectors(x, y);
    SectorExposureOver(x, sectors, sector, keys);
    SectorExposureOver(y, sectors, sector, keys);
    SumEqual(InSector(keys, sectors, sector), Entry(x), Entry(y));
  }

  lemma SameVariance(x: Weights, y: Weights, c: Covariance)
    requires SameEntries(x, y)
    ensures Variance(x, c) == Variance(y, c)
  {
    hide Sum;
    var keys, f, g := x.Keys + y.Keys, Entry(x), Entry(y);
    VarianceOver(x, c, keys);
    VarianceOver(y, c, keys);
    forall a ensures RowSum(keys, f, f, c)(a) == RowSum(keys, g, g, c)(a) {
      forall b ensures CellProduct(f, f, c, a)(b) == CellProduct(g, g, c, a)(b) {
        assert Get(x, a) == Get(y, a) && Get(x, b) == Get(y, b);
      }
      SumEqual(keys, CellProduct(f, f, c, a), CellProduct(g, g, c, a));
    }
    SumEqual(keys, RowSum(keys, f, f, c), RowSum(keys, g, g, c));
  }

  // ----- volatility through its square

  lemma VolatilityAtMost(w: Weights, c: Covariance, num: Numerics, ceiling: real)
    requires num.ExactRoot() && 0.0 <= ceiling
    ensures PortfolioVolatility(w, c, num) <= ceiling <==> Variance(w, c) <= ceiling * ceiling
  {
    var v := Variance(w, c);
    NonNegative(ceiling, ceiling);
    if v > 0.0 {
      SquareOrder(num.root(v), ceiling);
    }
  }

  lemma VolatilitySquared(w: Weights, c: Covariance, num: Numerics)
    requires num.ExactRoot()
    ensures 0.0 <= PortfolioVolatility(w, c, num)
    ensures 0.0 <= Variance(w, c) ==>
              PortfolioVolatility(w, c, num) * PortfolioVolatility(w, c, num) == Variance(w, c)
  {
  }

  // ----- compliance

  ghost predicate NameOk(s: string, weight: real, ctx: RiskContext, policy: InvestmentPolicy, slack: real) {
    && (policy.longOnly ==> -slack <= weight)
    && weight <= policy.maxPositionWeight + slack
    && s in ctx.universe
    && (IsBlocked(s, ctx) ==> weight <= slack)
  }

  ghost predicate NamesOk(w: Weights, ctx: RiskContext, policy: InvestmentPolicy, slack: real) {
    forall s :: s in w ==> NameOk(s, w[s], ctx, policy, slack)
  }

  ghost predicate SectorsOk(w: Weights, ctx: RiskContext, policy: InvestmentPolicy, slack: real) {
    forall s :: s in w ==> SectorExposure(w, ctx.sectors, SectorOf(s, ctx.sectors)) <= policy.maxSectorWeight + slack
  }

  ghost predicate BookOk(w: Weights, ctx: RiskContext, policy: InvestmentPolicy, num: Numerics, slack: real) {
    && Total(w) <= policy.maxGrossExposure + slack
    && policy.minCashBuffer - slack <= 1.0 - Total(w)
    && PortfolioBeta(w, ctx.betas) <= policy.maxPortfolioBeta + slack
    && PortfolioVolatility(w, ctx.covariance, num) <= policy.maxAnnualizedVolatility + slack
  }

  /** Every rule except Roy's safety-first ratio, up to `slack`. */
  ghost predicate Complies(w: Weights, ctx: RiskContext, policy: InvestmentPolicy, num: Numerics, slack: real) {
    NamesOk(w, ctx, policy, slack) && SectorsOk(w, ctx, policy, slack) && BookOk(w, ctx, policy, num, slack)
  }

  ghost predicate SafetyFirstOk(w: Weights, ctx: RiskContext, policy: InvestmentPolicy, num: Numerics) {
    var ratio := SafetyFirstRatio(w, ctx, policy, num);
    ratio.Some? ==> policy.safetyFirst.minimumRatio <= ratio.value
  }

  ghost predicate OnlySafetyFirst(violations: seq<Violation>) {
    forall v :: v in violations ==> v.code == SafetyFirstThreshold
  }

  lemma OnlySafetyFirstConcat(xs: seq<Violation>, ys: seq<Violation>)
    ensures OnlySafetyFirst(xs + ys) <==> OnlySafetyFirst(xs) && OnlySafetyFirst(ys)
  {
    assert forall v :: v in xs + ys <==> v in xs || v in ys;
  }

  /** None of `violations` is a safety-first breach. */
  ghost predicate NoSafetyFirst(violations: seq<Violation>) {
    OnlySafetyFirst(violations) ==> violations == []
  }

  lemma NoSafetyFirstConcat(xs: seq<Violation>, ys: seq<Violation>)
    requires NoSafetyFirst(xs) && NoSafetyFirst(ys)
    ensures NoSafetyFirst(xs + ys)
  {
    OnlySafetyFirstConcat(xs, ys);
  }

  lemma NoSafetyFirstWhen(condition: bool, v: Violation)
    requires v.code != SafetyFirstThreshold
    ensures NoSafetyFirst(When(condition, v))
  {
    if condition { assert v in When(condition, v); }
  }

  lemma NameViolationsExact(s: string, weight: real, ctx: RiskContext, policy: InvestmentPolicy)
    ensures NameViolations(s, weight, ctx, policy) == [] <==> NameOk(s, weight, ctx, policy, TOLERANCE)
    ensures NoSafetyFirst(NameViolations(s, weight, ctx, policy))
  {
    var own := NameViolations(s, weight, ctx, policy);
    if own != [] { assert own[0] in own; }
  }

  lemma {:induction false} AllNamesExact(ks: seq<string>, w: Weights, ctx: RiskContext, policy: InvestmentPolicy)
    ensures AllNameViolations(ks, w, ctx, policy) == []
            <==> forall s :: s in ks ==> NameOk(s, Get(w, s), ctx, policy, TOLERANCE)
    ensures NoSafetyFirst(AllNameViolations(ks, w, ctx, policy))
  {
    hide NameViolations;
    if ks != [] {
      var front, s := ks[..|ks| - 1], ks[|ks| - 1];
      AllNamesExact(front, w, ctx, policy);
      NameViolationsExact(s, Get(w, s), ctx, policy);
      NoSafetyFirstConcat(AllNameViolations(front, w, ctx, policy), NameViolations(s, Get(w, s), ctx, policy));
      assert forall k :: k in ks <==> k in front || k == s by { assert ks == front + [s]; }
    }
  }

  lemma {:induction false} AllSectorsExact(sectors: seq<string>, exposures: map<string, real>, policy: InvestmentPolicy)
    ensures AllSectorViolations(sectors, exposures, policy) == []
            <==> forall e :: e in sectors ==> Get(exposures, e) <= policy.maxSectorWeight + TOLERANCE
    ensures NoSafetyFirst(AllSectorViolations(sectors, exposures, policy))
  {
    if sectors != [] {
      var front, e := sectors[..|sectors| - 1], sectors[|sectors| - 1];
      AllSectorsExact(front, exposures, policy);
      NoSafetyFirstWhen(Get(exposures, e) > policy.maxSectorWeight + TOLERANCE,
                        Violation(MaxSectorWeight, None, Some(Get(exposures, e)), Some(policy.maxSectorWeight)));
      NoSafetyFirstConcat(AllSectorViolations(front, exposures, policy), SectorViolation(Get(exposures, e), policy));
      assert forall k :: k in sectors <==> k in front || k == e by { assert sectors == front + [e]; }
    }
  }

  lemma SectorsExact(w: Weights, ctx: RiskContext, policy: InvestmentPolicy)
    ensures var exposures := SectorExposures(w, ctx.sectors);
            AllSectorViolations(SortedKeys(exposures.Keys), exposures, policy) == [] <==> SectorsOk(w, ctx, policy, TOLERANCE)
  {
    hide SectorExposure;
    var exposures := SectorExposures(w, ctx.sectors);
    AllSectorsExact(SortedKeys(exposures.Keys), exposures, policy);
    assert forall s :: s in w ==> SectorOf(s, ctx.sectors) in exposures;
    assert forall e :: e in exposures ==> exists s :: s in w && SectorOf(s, ctx.sectors) == e;
  }

  lemma BookExact(w: Weights, ctx: RiskContext, policy: InvestmentPolicy, num: Numerics)
    ensures BookViolations(w, ctx, policy, num) == [] <==> BookOk(w, ctx, policy, num, TOLERANCE)
    ensures NoSafetyFirst(BookViolations(w, ctx, policy, num))
  {
    hide Sum;
    var book := BookViolations(w, ctx, policy, num);
    if book != [] { assert book[0] in book; }
  }

  /** The gate is exact: it finds nothing but a safety-first breach just when the book
      complies within TOLERANCE, and nothing at all just when the ratio is met too. */
  lemma VerifyExact(w: Weights, ctx: RiskContext, policy: InvestmentPolicy, num: Numerics)
    ensures OnlySafetyFirst(Verify(w, ctx, policy, num)) <==> Complies(w, ctx, policy, num, TOLERANCE)
    ensures Verify(w, ctx, policy, num) == []
            <==> Complies(w, ctx, policy, num, TOLERANCE) && SafetyFirstOk(w, ctx, policy, num)
  {
    hide AllNameViolations, AllSectorViolations, BookViolations, BookOk, SafetyFirstRatio, SectorExposure, SectorsOk, SortedKeys;
    hide SectorExposures;
    var exposures := SectorExposures(w, ctx.sectors);
    var names := AllNameViolations(SortedKeys(w.Keys), w, ctx, policy);
    var sectors := AllSectorViolations(SortedKeys(exposures.Keys), exposures, policy);
    var book := BookViolations(w, ctx, policy, num);
    var safety := SafetyFirstViolation(SafetyFirstRatio(w, ctx, policy, num), policy);
    AllNamesExact(SortedKeys(w.Keys), w, ctx, policy);
    AllSectorsExact(SortedKeys(exposures.Keys), exposures, policy);
    SectorsExact(w, ctx, policy);
    BookExact(w, ctx, policy, num);
    assert names == [] <==> NamesOk(w, ctx, policy, TOLERANCE);
    NoSafetyFirstConcat(names, sectors);
    NoSafetyFirstConcat(names + sectors, book);
    OnlySafetyFirstConcat(names + sectors + book, safety);
    assert Verify(w, ctx, policy, num) == names + sectors + book + safety;
  }

  // ----- what exactly is reported

  /** The breaches of one name, each with the margin it shows. */
  ghost predicate NameBreach(v: Violation, s: string, weight: real, ctx: RiskContext, policy: InvestmentPolicy) {
    && v.symbol == Some(s)
    && match v.code
       case NoShorting => policy.longOnly && weight < -TOLERANCE && v.observed == Some(weight) && v.limit == Some(0.0)
       case MaxPositionWeight =>
         weight > policy.maxPositionWeight + TOLERANCE && v.observed == Some(weight) && v.limit == Some(policy.maxPositionWeight)
       case UniverseWhitelist => s !in ctx.universe && v.observed == None && v.limit == None
       case WashSaleWindow => weight > TOLERANCE && s in ctx.blockedUntil && ctx.asOf < ctx.blockedUntil[s] && v.observed == Some(weight) && v.limit == None
       case _ => false
  }

  ghost predicate SectorBreach(v: Violation, exposure: real, policy: InvestmentPolicy) {
    && v == Violation(MaxSectorWeight, None, Some(exposure), Some(policy.maxSectorWeight))
    && exposure > policy.maxSectorWeight + TOLERANCE
  }

  ghost predicate BookBreach(v: Violation, w: Weights, ctx: RiskContext, policy: InvestmentPolicy, num: Numerics) {
    && v.symbol == None && v.observed.Some? && v.limit.Some?
    && match v.code
       case NoLeverage => v.observed.value == Total(w) > v.limit.value + TOLERANCE && v.limit.value == policy.maxGrossExposure
       case MinCashBuffer => v.observed.value == 1.0 - Total(w) < v.limit.value - TOLERANCE && v.limit.value == policy.minCashBuffer
       case MaxPortfolioBeta =>
         v.observed.value == PortfolioBeta(w, ctx.betas) > v.limit.value + TOLERANCE && v.limit.value == policy.maxPortfolioBeta
       case MaxVolatility =>
         && v.observed.value == PortfolioVolatility(w, ctx.covariance, num) > v.limit.value + TOLERANCE
         && v.limit.value == policy.maxAnnualizedVolatility
       case SafetyFirstThreshold =>
         && SafetyFirstRatio(w, ctx, policy, num) == v.observed
         && v.observed.value < v.limit.value == policy.safetyFirst.minimumRatio
       case _ => false
  }

  ghost predicate Breach(v: Violation, w: Weights, ctx: RiskContext, policy: InvestmentPolicy, num: Numerics) {
    || (exists s :: s in w && NameBreach(v, s, w[s], ctx, policy))
    || (exists s :: s in w && SectorBreach(v, SectorExposure(w, ctx.sectors, SectorOf(s, ctx.sectors)), policy))
    || BookBreach(v, w, ctx, policy, num)
  }

  lemma NameReports(s: string, weight: real, ctx: RiskContext, policy: InvestmentPolicy, v: Violation)
    ensures v in NameViolations(s, weight, ctx, policy) <==> NameBreach(v, s, weight, ctx, policy)
  {
    var short := When(policy.longOnly && weight < -TOLERANCE, Violation(NoShorting, Some(s), Some(weight), Some(0.0)));
    var large := When(weight > policy.maxPositionWeight + TOLERANCE,
                      Violation(MaxPositionWeight, Some(s), Some(weight), Some(policy.maxPositionWeight)));
    var unlisted := When(s !in ctx.universe, Violation(UniverseWhitelist, Some(s), None, None));
    var blocked := When(weight > TOLERANCE && IsBlocked(s, ctx), Violation(WashSaleWindow, Some(s), Some(weight), None));
    assert v in NameViolations(s, weight, ctx, policy) <==> v in short || v in large || v in unlisted || v in blocked;
  }

  lemma {:induction false} AllNamesReport(ks: seq<string>, w: Weights, ctx: RiskContext, policy: InvestmentPolicy, v: Violation)
    ensures v in AllNameViolations(ks, w, ctx, policy) <==> exists s :: s in ks && NameBreach(v, s, Get(w, s), ctx, policy)
  {
    hide NameViolations, NameBreach;
    if ks != [] {
      var front, s := ks[..|ks| - 1], ks[|ks| - 1];
      AllNamesReport(front, w, ctx, policy, v);
      NameReports(s, Get(w, s), ctx, policy, v);
      assert forall k :: k in ks <==> k in front || k == s by { assert ks == front + [s]; }
    }
  }

  lemma {:induction false} AllSectorsReport(sectors: seq<string>, exposures: map<string, real>, policy: InvestmentPolicy, v: Violation)
    ensures v in AllSectorViolations(sectors, exposures, policy) <==> exists e :: e in sectors && SectorBreach(v, Get(exposures, e), policy)
  {
    if sectors != [] {
      var front, e := sectors[..|sectors| - 1], sectors[|sectors| - 1];
      AllSectorsReport(front, exposures, policy, v);
      assert v in SectorViolation(Get(exposures, e), policy) <==> SectorBreach(v, Get(exposures, e), policy);
      assert forall k :: k in sectors <==> k in front || k == e by { assert sectors == front + [e]; }
    }
  }

  lemma SectorsReport(w: Weights, ctx: RiskContext, policy: InvestmentPolicy, v: Violation)
    ensures var exposures := SectorExposures(w, ctx.sectors);
      v in AllSectorViolations(SortedKeys(exposures.Keys), exposures, policy)
      <==> exists s :: s in w && SectorBreach(v, SectorExposure(w, ctx.sectors, SectorOf(s, ctx.sectors)), policy)
  {
    hide SectorExposure, SectorBreach;
    var exposures := SectorExposures(w, ctx.sectors);
    AllSectorsReport(SortedKeys(exposures.Keys), exposures, policy, v);
    assert forall s :: s in w ==> SectorOf(s, ctx.sectors) in exposures;
    assert forall e :: e in exposures ==> exists s :: s in w && SectorOf(s, ctx.sectors) == e;
  }

  lemma BookReports(w: Weights, ctx: RiskContext, policy: InvestmentPolicy, num: Numerics, v: Violation)
    ensures v in BookViolations(w, ctx, policy, num) + SafetyFirstViolation(SafetyFirstRatio(w, ctx, policy, num), policy)
            <==> BookBreach(v, w, ctx, policy, num)
  {
    var gross, beta := Total(w), PortfolioBeta(w, ctx.betas);
    var volatility, ratio := PortfolioVolatility(w, ctx.covariance, num), SafetyFirstRatio(w, ctx, policy, num);
    hide Total, Dot, PortfolioVolatility, SafetyFirstRatio;
    var leverage := When(gross > policy.maxGrossExposure + TOLERANCE,
                         Violation(NoLeverage, None, Some(gross), Some(policy.maxGrossExposure)));
    var cash := When(1.0 - gross < policy.minCashBuffer - TOLERANCE,
                     Violation(MinCashBuffer, None, Some(1.0 - gross), Some(policy.minCashBuffer)));
    var market := When(beta > policy.maxPortfolioBeta + TOLERANCE,
                       Violation(MaxPortfolioBeta, None, Some(beta), Some(policy.maxPortfolioBeta)));
    var risk := When(volatility > policy.maxAnnualizedVolatility + TOLERANCE,
                     Violation(MaxVolatility, None, Some(volatility), Some(policy.maxAnnualizedVolatility)));
    assert BookViolations(w, ctx, policy, num) == leverage + cash + market + risk;
    assert v in BookViolations(w, ctx, policy, num) + SafetyFirstViolation(ratio, policy)
           <==> v in leverage || v in cash || v in market || v in risk || v in SafetyFirstViolation(ratio, policy);
  }

  /** The gate reports exactly the breaches there are, each under its own code with the value
      measured and the limit it is beyond. */
  lemma GateReportsExactly(w: Weights, ctx: RiskContext, policy: InvestmentPolicy, num: Numerics, v: Violation)
    ensures v in Verify(w, ctx, policy, num) <==> Breach(v, w, ctx, policy, num)
  {
    hide AllNameViolations, AllSectorViolations, BookViolations, SafetyFirstViolation;
    hide NameBreach, SectorBreach, BookBreach, SectorExposure, SafetyFirstRatio, SectorExposures;
    var exposures := SectorExposures(w, ctx.sectors);
    AllNamesReport(SortedKeys(w.Keys), w, ctx, policy, v);
    SectorsReport(w, ctx, policy, v);
    BookReports(w, ctx, policy, num, v);
  }

  lemma SlackWidens(w: Weights, ctx: RiskContext, policy: InvestmentPolicy, num: Numerics, small: real, large: real)
    requires Complies(w, ctx, policy, num, small) && small <= large
    ensures Complies(w, ctx, policy, num, large)
  {
  }

  // ----- the turnover blend

  lemma BetweenBounds(x: real, y: real, t: real, low: real, high: real)
    requires 0.0 <= t <= 1.0
    requires low <= x <= high && low <= y <= high
    ensures low <= Between(x, y, t) <= high
  {
    NonNegative(t, y - low);
    NonNegative(1.0 - t, x - low);
    NonNegative(t, high - y);
    NonNegative(1.0 - t, high - x);
  }

  lemma MixAtMost(x: real, y: real, t: real, high: real)
    requires 0.0 <= t <= 1.0
    requires x <= high && y <= high
    ensures (1.0 - t) * x + t * y <= high
  {
    NonNegative(t, high - y);
    NonNegative(1.0 - t, high - x);
  }

  lemma SectorBlend(x: Weights, y: Weights, t: real, sectors: map<string, string>, sector: string)
    ensures SectorExposure(Blend(x, y, t), sectors, sector)
            == (1.0 - t) * SectorExposure(x, sectors, sector) + t * SectorExposure(y, sectors, sector)
  {
    hide Sum, SectorExposure, InSector, Combines;
    var keys, z := x.Keys + y.Keys, Blend(x, y, t);
    assert z.Keys == keys;
    hide Blend;
    var members := InSector(keys, sectors, sector);
    SectorExposureOver(x, sectors, sector, keys);
    SectorExposureOver(y, sectors, sector, keys);
    SectorExposureOver(z, sectors, sector, keys);
    BlendCombines(members, x, y, t);
    SumLinear(members, 1.0 - t, Entry(x), t, Entry(y), Entry(z));
  }

  /** A sector with no name held in it has exposure 0, so a compliant book is within the
      cap in every sector, not only in those it holds. */
  lemma EverySectorOk(w: Weights, ctx: RiskContext, policy: InvestmentPolicy, slack: real, sector: string)
    requires SectorsOk(w, ctx, policy, slack)
    requires 0.0 <= policy.maxSectorWeight + slack
    ensures SectorExposure(w, ctx.sectors, sector) <= policy.maxSectorWeight + slack
  {
    var members := SectorMembers(w, ctx.sectors, sector);
    if members != {} {
      var s := Least(members);
      assert s in w && SectorOf(s, ctx.sectors) == sector;
    }
  }

  lemma BlendNamesOk(x: Weights, y: Weights, t: real, ctx: RiskContext, policy: InvestmentPolicy, slack: real)
    requires 0.0 <= t <= 1.0 && 0.0 <= slack && 0.0 <= policy.maxPositionWeight
    requires NamesOk(x, ctx, policy, slack) && NamesOk(y, ctx, policy, slack)
    ensures NamesOk(Blend(x, y, t), ctx, policy, slack)
  {
    var z := Blend(x, y, t);
    forall s | s in z ensures NameOk(s, z[s], ctx, policy, slack) {
      var a, b := Get(x, s), Get(y, s);
      assert s in x || s in y;
      var low := if policy.longOnly then -slack else if a < b then a else b;
      BetweenBounds(a, b, t, low, policy.maxPositionWeight + slack);
      if IsBlocked(s, ctx) { BetweenBounds(a, b, t, low, slack); }
    }
  }

  lemma BlendBookOk(x: Weights, y: Weights, t: real, ctx: RiskContext, policy: InvestmentPolicy, num: Numerics, slack: real)
    requires 0.0 <= t <= 1.0 && 0.0 <= policy.maxAnnualizedVolatility + slack
    requires num.ExactRoot() && PositiveSemidefinite(ctx.covariance)
    requires BookOk(x, ctx, policy, num, slack) && BookOk(y, ctx, policy, num, slack)
    ensures BookOk(Blend(x, y, t), ctx, policy, num, slack)
  {
    hide Total, Dot, PortfolioVolatility, Blend, PositiveSemidefinite;
    TotalBlend(x, y, t);
    DotBlend(x, y, t, ctx.betas);
    MixAtMost(Total(x), Total(y), t, policy.maxGrossExposure + slack);
    MixAtMost(Total(x), Total(y), t, 1.0 - policy.minCashBuffer + slack);
    MixAtMost(Dot(x, ctx.betas), Dot(y, ctx.betas), t, policy.maxPortfolioBeta + slack);
    VolatilityBlend(x, y, t, ctx.covariance, num, policy.maxAnnualizedVolatility + slack);
  }

  /** Volatility is quasi-convex: a blend of two books under a ceiling stays under it. */
  lemma VolatilityBlend(x: Weights, y: Weights, t: real, c: Covariance, num: Numerics, ceiling: real)
    requires 0.0 <= t <= 1.0 && 0.0 <= ceiling
    requires num.ExactRoot() && PositiveSemidefinite(c)
    requires PortfolioVolatility(x, c, num) <= ceiling && PortfolioVolatility(y, c, num) <= ceiling
    ensures PortfolioVolatility(Blend(x, y, t), c, num) <= ceiling
  {
    hide Variance, Blend, PortfolioVolatility, PositiveSemidefinite;
    VolatilityAtMost(x, c, num, ceiling);
    VolatilityAtMost(y, c, num, ceiling);
    VolatilityAtMost(Blend(x, y, t), c, num, ceiling);
    VarianceConvex(x, y, t, c);
    MixAtMost(Variance(x, c), Variance(y, c), t, ceiling * ceiling);
  }

  lemma SameComplies(x: Weights, y: Weights, ctx: RiskContext, policy: InvestmentPolicy, num: Numerics, slack: real)
    requires SameEntries(x, y) && Complies(x, ctx, policy, num, slack)
    requires y.Keys <= x.Keys
    ensures Complies(y, ctx, policy, num, slack)
  {
    hide Sum;
    SameLinear(x, y, ctx.betas);
    SameVariance(x, y, ctx.covariance);
    forall s | s in y
      ensures NameOk(s, y[s], ctx, policy, slack)
      ensures SectorExposure(y, ctx.sectors, SectorOf(s, ctx.sectors)) <= policy.maxSectorWeight + slack
    {
      assert Get(x, s) == Get(y, s);
      SameSector(x, y, ctx.sectors, SectorOf(s, ctx.sectors));
    }
  }

  lemma BlendSectorsOk(x: Weights, y: Weights, t: real, ctx: RiskContext, policy: InvestmentPolicy, slack: real)
    requires 0.0 <= t <= 1.0 && 0.0 <= policy.maxSectorWeight + slack
    requires SectorsOk(x, ctx, policy, slack) && SectorsOk(y, ctx, policy, slack)
    ensures SectorsOk(Blend(x, y, t), ctx, policy, slack)
  {
    hide Sum, SectorExposure;
    var z := Blend(x, y, t);
    forall s | s in z ensures SectorExposure(z, ctx.sectors, SectorOf(s, ctx.sectors)) <= policy.maxSectorWeight + slack {
      var sector := SectorOf(s, ctx.sectors);
      SectorBlend(x, y, t, ctx.sectors, sector);
      EverySectorOk(x, ctx, policy, slack, sector);
      EverySectorOk(y, ctx, policy, slack, sector);
      MixAtMost(SectorExposure(x, ctx.sectors, sector), SectorExposure(y, ctx.sectors, sector), t, policy.maxSectorWeight + slack);
    }
  }

  /** The compliant books form a convex set, for every slack. */
  lemma CompliesConvex(x: Weights, y: Weights, t: real, ctx: RiskContext, policy: InvestmentPolicy, num: Numerics, slack: real)
    requires policy.Constructible() && policy.NonNegativeCeilings()
    requires num.ExactRoot() && PositiveSemidefinite(ctx.covariance)
    requires 0.0 <= t <= 1.0 && 0.0 <= slack
    requires Complies(x, ctx, policy, num, slack) && Complies(y, ctx, policy, num, slack)
    ensures Complies(Blend(x, y, t), ctx, policy, num, slack)
  {
    hide NamesOk, SectorsOk, BookOk, PositiveSemidefinite;
    BlendNamesOk(x, y, t, ctx, policy, slack);
    BlendSectorsOk(x, y, t, ctx, policy, slack);
    BlendBookOk(x, y, t, ctx, policy, num, slack);
  }
}
