/** Conservation through execution: what an account is worth before and after, what stays
    non-negative, and what the report says trading cost. */
module ExecutionLedger {
  import opened Arithmetic
  import opened Sums
  import opened Mandates
  import opened Execution
  import opened ExecutionTheorems

  // ----- what an account is worth

  lemma MarketValueOver(positions: Positions, prices: Prices, keys: set<string>)
    requires positions.Keys <= keys
    ensures MarketValue(positions, prices) == Sum(keys, ValueOf(positions, prices))
  {
    hide Sum;
    SumWiden(positions.Keys, keys, ValueOf(positions, prices));
  }

  /** Holdings that agree on every priced name are worth the same. */
  lemma MarketValueSame(p: Positions, q: Positions, prices: Prices)
    requires forall s :: s in prices ==> Held(p, s) == Held(q, s)
    ensures MarketValue(p, prices) == MarketValue(q, prices)
  {
    hide Sum;
    var keys := p.Keys + q.Keys;
    MarketValueOver(p, prices, keys);
    MarketValueOver(q, prices, keys);
    SumEqual(keys, ValueOf(p, prices), ValueOf(q, prices));
  }

  lemma SharesApart(n: int, d: int, price: real)
    ensures (n + d) as real * price == n as real * price + d as real * price
  {
    assert (n + d) as real == n as real + d as real;
  }

  lemma ValueAfter(positions: Positions, prices: Prices, s: string, d: int)
    requires s in prices
    ensures var f, g := ValueOf(positions, prices), ValueOf(positions[s := Held(positions, s) + d], prices);
      && g(s) == f(s) + d as real * prices[s]
      && forall k :: k != s ==> f(k) == g(k)
  {
    SharesApart(Held(positions, s), d, prices[s]);
  }

  lemma MarketValueStep(positions: Positions, prices: Prices, s: string, d: int)
    requires s in prices
    ensures MarketValue(positions[s := Held(positions, s) + d], prices) == MarketValue(positions, prices) + d as real * prices[s]
  {
    hide Sum, ValueOf, MarketValue;
    var after := positions[s := Held(positions, s) + d];
    var keys := positions.Keys + {s};
    var f, g := ValueOf(positions, prices), ValueOf(after, prices);
    MarketValueOver(positions, prices, keys);
    MarketValueOver(after, prices, keys);
    ValueAfter(positions, prices, s, d);
    SumRemove(keys, s, f);
    SumRemove(keys, s, g);
    SumEqual(keys - {s}, f, g);
  }

  /** What is paid for one fill beside the price the shares are marked at ... */
  function SpreadOf(fill: Fill, prices: Prices): real {
    fill.Payment() - fill.quantity as real * Get(prices, fill.symbol)
  }

  function SpreadPaid(fills: seq<Fill>, prices: Prices): real {
    if fills == [] then 0.0 else SpreadPaid(fills[..|fills| - 1], prices) + SpreadOf(fills[|fills| - 1], prices)
  }

  /** ... and all it costs, commission included. */
  function FillCost(fill: Fill, prices: Prices): real {
    fill.commission + SpreadOf(fill, prices)
  }

  function TradingCost(fills: seq<Fill>, prices: Prices): real {
    if fills == [] then 0.0 else TradingCost(fills[..|fills| - 1], prices) + FillCost(fills[|fills| - 1], prices)
  }

  lemma {:induction false} TradingCostSplits(fills: seq<Fill>, prices: Prices)
    ensures TradingCost(fills, prices) == TotalCommission(fills) + SpreadPaid(fills, prices)
  {
    hide SpreadOf;
    if fills != [] { TradingCostSplits(fills[..|fills| - 1], prices); }
  }

  function Worth(book: Book, prices: Prices): real {
    book.cash + MarketValue(book.positions, prices)
  }

  lemma SettleConserves(book: Book, fill: Fill, prices: Prices)
    requires fill.symbol in prices
    ensures Worth(Settle(book, fill), prices) == Worth(book, prices) - FillCost(fill, prices)
    ensures TradingCost(Settle(book, fill).fills, prices) == TradingCost(book.fills, prices) + FillCost(fill, prices)
  {
    MarketValueStep(book.positions, prices, fill.symbol, fill.quantity);
    assert Settle(book, fill).fills[..|book.fills|] == book.fills;
    hide MarketValue;
  }

  lemma {:induction false} WorkConserves(book: Book, orders: seq<Order>, prices: Prices, model: FillModel, allowShortCash: bool)
    ensures var after := WorkAll(book, orders, prices, model, allowShortCash);
      Worth(after, prices) + TradingCost(after.fills, prices) == Worth(book, prices) + TradingCost(book.fills, prices)
  {
    hide Worth, TradingCost, FillCost, CrossedPrice, CannotAfford, Settle;
    if orders != [] {
      var front, o := orders[..|orders| - 1], orders[|orders| - 1];
      var before := WorkAll(book, front, prices, model, allowShortCash);
      WorkConserves(book, front, prices, model, allowShortCash);
      if o.symbol in prices {
        var fill := FillOrder(model, o, prices[o.symbol]);
        SettleConserves(before, fill, prices);
        if CannotAfford(fill, o, before.cash, allowShortCash) { RejectionKeeps(before, o, prices); }
      }
    }
  }

  lemma RejectionKeeps(book: Book, o: Order, prices: Prices)
    ensures Worth(book.(rejections := book.rejections + [Rejection(o.symbol, InsufficientCash)]), prices) == Worth(book, prices)
  {
  }

  /** Execution is self-financing: marked at the same prices, the account rebuilt from the
      report is worth what the account was worth, less the commission reported and what
      was paid beside the mark. */
  lemma ExecutionConserves(model: FillModel, allowShortCash: bool, mandate: RebalanceMandate, account: Account, market: MarketSnapshot)
    requires Simulate(model, allowShortCash, mandate, account, market).Success?
    ensures var report := Simulate(model, allowShortCash, mandate, account, market).value;
      TotalValue(Rebuilt(report), market.prices)
      == TotalValue(account, market.prices) - (report.totalCommission + SpreadPaid(report.fills, market.prices))
  {
    hide Simulate, SizeOrders, WorkAll, MarketValue, Rebuilt, FillCost, SpreadPaid, TotalCommission;
    TradingCostSplits(Simulate(model, allowShortCash, mandate, account, market).value.fills, market.prices);
    hide TradingCost;
    ReportedBook(model, allowShortCash, mandate, account, market, "");
    var book := WorkedBook(model, allowShortCash, mandate, account, market);
    var (orders, rejections) := SizeOrders(mandate, account, market).value;
    WorkConserves(Book(account.positions, account.cash, [], rejections), orders, market.prices, model, allowShortCash);
    MarketValueSame(PricedPositions(book.positions, market.prices), book.positions, market.prices);
  }

  lemma CommissionReported(model: FillModel, allowShortCash: bool, mandate: RebalanceMandate, account: Account, market: MarketSnapshot)
    requires Simulate(model, allowShortCash, mandate, account, market).Success?
    ensures var report := Simulate(model, allowShortCash, mandate, account, market).value;
      report.totalCommission == TotalCommission(report.fills)
  {
    hide SizeOrders, WorkAll, TotalCommission, TotalNotional, ShortfallBps, SnapshotsOf;
  }

  // ----- where fills come from

  ghost predicate FillsFrom(fills: seq<Fill>, prices: Prices, model: FillModel) {
    forall f :: f in fills ==>
      exists o: Order :: 0 < o.quantity && o.symbol in prices && 0.0 < prices[o.symbol] && f == FillOrder(model, o, prices[o.symbol])
  }

  ghost predicate UsableOrders(orders: seq<Order>, prices: Prices) {
    forall o :: o in orders ==> 0 < o.quantity && o.symbol in prices && 0.0 < prices[o.symbol]
  }

  lemma {:induction false} WorkFills(book: Book, orders: seq<Order>, prices: Prices, model: FillModel, allowShortCash: bool)
    requires UsableOrders(orders, prices) && FillsFrom(book.fills, prices, model)
    ensures FillsFrom(WorkAll(book, orders, prices, model, allowShortCash).fills, prices, model)
  {
    hide FillOrder;
    if orders != [] {
      var front, o := orders[..|orders| - 1], orders[|orders| - 1];
      assert forall k :: k in front ==> k in orders;
      WorkFills(book, front, prices, model, allowShortCash);
    }
  }

  lemma SizedAreUsable(mandate: RebalanceMandate, account: Account, market: MarketSnapshot)
    requires DistinctSymbols(mandate.targets) && SizeOrders(mandate, account, market).Success?
    ensures UsableOrders(SizeOrders(mandate, account, market).value.0, market.prices)
  {
    hide SizeTarget, TotalValue, SizeOrders;
    var value := TotalValue(account, market.prices);
    SizedOrders(mandate, account, market);
    var orders := SizeOrders(mandate, account, market).value.0;
    forall o | o in orders ensures 0 < o.quantity && o.symbol in market.prices && 0.0 < market.prices[o.symbol] {
      var t :| t in mandate.targets && SizeTarget(t, account, market.prices, value, mandate.minTradeNotional) == Sent(o);
      SizedSymbol(t, account, market.prices, value, mandate.minTradeNotional);
    }
  }

  lemma ReportFills(model: FillModel, allowShortCash: bool, mandate: RebalanceMandate, account: Account, market: MarketSnapshot)
    requires DistinctSymbols(mandate.targets)
    requires Simulate(model, allowShortCash, mandate, account, market).Success?
    ensures FillsFrom(Simulate(model, allowShortCash, mandate, account, market).value.fills, market.prices, model)
  {
    hide Simulate, SizeOrders, WorkAll, Rebuilt, UsableOrders, FillsFrom;
    ReportedBook(model, allowShortCash, mandate, account, market, "");
    SizedAreUsable(mandate, account, market);
    var (orders, rejections) := SizeOrders(mandate, account, market).value;
    var start := Book(account.positions, account.cash, [], rejections);
    assert FillsFrom(start.fills, market.prices, model) by { NoFills(market.prices, model); }
    WorkFills(start, orders, market.prices, model, allowShortCash);
  }

  lemma NoFills(prices: Prices, model: FillModel)
    ensures FillsFrom([], prices, model)
  {
  }

  // ----- what trading costs

  /** The half-spread actually paid per share, 0 where crossing would drive the price to
      zero or below. */
  function PaidPerShare(model: FillModel, side: Side, price: real): real {
    if side == Buy then CrossedPrice(model, side, price) - price else price - CrossedPrice(model, side, price)
  }

  lemma CostOfFill(model: FillModel, o: Order, prices: Prices)
    requires o.symbol in prices
    ensures var f := FillOrder(model, o, prices[o.symbol]);
      && SpreadOf(f, prices) == o.quantity as real * PaidPerShare(model, o.side, prices[o.symbol])
      && f.commission == if model.Instant? then 0.0 else model.commissionPerShare * o.quantity as real
  {
    hide CrossedPrice;
    var q, p, c := o.quantity as real, prices[o.symbol], CrossedPrice(model, o.side, prices[o.symbol]);
    assert q * (c - p) == q * c - q * p && q * (p - c) == q * p - q * c;
    assert (-o.quantity) as real == -q;
    assert (-q) * c == -(q * c) && (-q) * p == -(q * p);
  }

  /** Under instant fills trading is free. */
  lemma {:induction false} InstantIsFree(fills: seq<Fill>, prices: Prices)
    requires FillsFrom(fills, prices, Instant)
    ensures TotalCommission(fills) == 0.0 && SpreadPaid(fills, prices) == 0.0
  {
    hide SpreadOf, FillOrder;
    if fills != [] {
      var front, f := fills[..|fills| - 1], fills[|fills| - 1];
      assert forall k :: k in front ==> k in fills;
      InstantIsFree(front, prices);
      assert f in fills;
      var o: Order :| 0 < o.quantity && o.symbol in prices && 0.0 < prices[o.symbol] && f == FillOrder(Instant, o, prices[o.symbol]);
      CostOfFill(Instant, o, prices);
      assert PaidPerShare(Instant, o.side, prices[o.symbol]) == 0.0;
    }
  }

  /** The shares bought and sold, and what they are worth at the mark. */
  function SharesTraded(fills: seq<Fill>): int {
    if fills == [] then 0 else SharesTraded(fills[..|fills| - 1]) + AbsInt(fills[|fills| - 1].quantity)
  }

  function TradedAtMark(fills: seq<Fill>, prices: Prices): real {
    if fills == [] then 0.0
    else TradedAtMark(fills[..|fills| - 1], prices) + AbsInt(fills[|fills| - 1].quantity) as real * Get(prices, fills[|fills| - 1].symbol)
  }

  lemma SpreadOfFill(spread: real, commission: real, o: Order, prices: Prices)
    requires -20000.0 < spread < 20000.0
    requires 0 < o.quantity && o.symbol in prices && 0.0 < prices[o.symbol]
    ensures var f := FillOrder(SpreadCross(spread, commission), o, prices[o.symbol]);
      && SpreadOf(f, prices) == spread / BPS / 2.0 * (AbsInt(f.quantity) as real * Get(prices, f.symbol))
      && f.commission == commission * AbsInt(f.quantity) as real
  {
    CostOfFill(SpreadCross(spread, commission), o, prices);
    HalfSpreadPaid(spread, commission, o.side, prices[o.symbol]);
    hide CrossedPrice, SpreadOf, PaidPerShare;
    Rearrange(o.quantity as real, prices[o.symbol], spread / BPS);
  }

  lemma Rearrange(q: real, p: real, k: real)
    ensures q * (p * k / 2.0) == k / 2.0 * (q * p)
  {
    assert p * k / 2.0 == p * (k / 2.0);
    assert q * (p * (k / 2.0)) == k / 2.0 * (q * p);
  }

  /** Crossing the spread costs half of it on everything traded, and the commission on every
      share, whatever the mix of buys and sells. */
  lemma {:induction false} CrossingCosts(fills: seq<Fill>, prices: Prices, spread: real, commission: real)
    requires -20000.0 < spread < 20000.0
    requires FillsFrom(fills, prices, SpreadCross(spread, commission))
    ensures SpreadPaid(fills, prices) == spread / BPS / 2.0 * TradedAtMark(fills, prices)
    ensures TotalCommission(fills) == commission * SharesTraded(fills) as real
  {
    hide SpreadOf, FillOrder, SpreadPaid, TradedAtMark, TotalCommission, SharesTraded, AbsInt, Get;
    if fills == [] {
      NothingCrossed(prices, spread / BPS / 2.0, commission);
    } else {
      var front, f := fills[..|fills| - 1], fills[|fills| - 1];
      assert forall k :: k in front ==> k in fills;
      assert f in fills;
      CrossingFill(f, prices, spread, commission);
      CrossingCosts(front, prices, spread, commission);
      CrossingStep(fills, prices, spread / BPS / 2.0, commission);
    }
  }

  lemma NothingCrossed(prices: Prices, k: real, commission: real)
    ensures SpreadPaid([], prices) == k * TradedAtMark([], prices)
    ensures TotalCommission([]) == commission * SharesTraded([]) as real
  {
  }

  lemma CrossingStep(fills: seq<Fill>, prices: Prices, k: real, commission: real)
    requires fills != []
    requires var front, f := fills[..|fills| - 1], fills[|fills| - 1];
      && SpreadOf(f, prices) == k * (AbsInt(f.quantity) as real * Get(prices, f.symbol))
      && f.commission == commission * AbsInt(f.quantity) as real
      && SpreadPaid(front, prices) == k * TradedAtMark(front, prices)
      && TotalCommission(front) == commission * SharesTraded(front) as real
    ensures SpreadPaid(fills, prices) == k * TradedAtMark(fills, prices)
    ensures TotalCommission(fills) == commission * SharesTraded(fills) as real
  {
    hide SpreadOf, AbsInt, Get;
    var front, f := fills[..|fills| - 1], fills[|fills| - 1];
    var n := AbsInt(f.quantity);
    Together(k, TradedAtMark(front, prices), n as real * Get(prices, f.symbol));
    assert (SharesTraded(front) + n) as real == SharesTraded(front) as real + n as real;
    Together(commission, SharesTraded(front) as real, n as real);
  }

  lemma CrossingFill(f: Fill, prices: Prices, spread: real, commission: real)
    requires -20000.0 < spread < 20000.0
    requires exists o: Order ::
      0 < o.quantity && o.symbol in prices && 0.0 < prices[o.symbol] && f == FillOrder(SpreadCross(spread, commission), o, prices[o.symbol])
    ensures SpreadOf(f, prices) == spread / BPS / 2.0 * (AbsInt(f.quantity) as real * Get(prices, f.symbol))
    ensures f.commission == commission * AbsInt(f.quantity) as real
  {
    hide SpreadOf, FillOrder;
    var o: Order :| 0 < o.quantity && o.symbol in prices && 0.0 < prices[o.symbol]
                    && f == FillOrder(SpreadCross(spread, commission), o, prices[o.symbol]);
    SpreadOfFill(spread, commission, o, prices);
  }

  lemma Together(k: real, x: real, y: real)
    ensures k * (x + y) == k * x + k * y
  {
  }

  /** A spread narrower than twice the price is paid in full, half of it on each side. */
  lemma HalfSpreadPaid(spread: real, commission: real, side: Side, price: real)
    requires 0.0 < price && -20000.0 < spread < 20000.0
    ensures PaidPerShare(SpreadCross(spread, commission), side, price) == price * (spread / BPS) / 2.0
    ensures 0.0 < CrossedPrice(SpreadCross(spread, commission), side, price)
  {
    var k := spread / BPS / 2.0;
    var half := price * (spread / BPS) / 2.0;
    assert half == price * k;
    assert -1.0 < k < 1.0;
    PositiveProduct(1.0 - k, price, (1.0 - k) * price);
    PositiveProduct(1.0 + k, price, (1.0 + k) * price);
    assert (1.0 - k) * price == price - half && (1.0 + k) * price == price + half;
  }

  // ----- the shortfall in the report

  lemma SlippageOfFill(spread: real, commission: real, o: Order, prices: Prices)
    requires -20000.0 < spread < 20000.0
    requires 0 < o.quantity && o.symbol in prices && 0.0 < prices[o.symbol]
    ensures var f := FillOrder(SpreadCross(spread, commission), o, prices[o.symbol]);
      Measurable(f, prices) && Slippage(f, prices) == spread / BPS / 2.0 && 0.0 < f.Notional()
  {
    var model, p := SpreadCross(spread, commission), prices[o.symbol];
    var f := FillOrder(model, o, p);
    HalfSpreadPaid(spread, commission, o.side, p);
    var k := spread / BPS / 2.0;
    var paid := PaidPerShare(model, o.side, p);
    assert paid == p * k;
    assert p * k / p == k;
    PositiveProduct(o.quantity as real, f.price, f.Notional());
    hide CrossedPrice;
    assert Measurable(f, prices);
    assert (if f.quantity > 0 then 1.0 else -1.0) * (f.price - p) == paid;
  }

  lemma {:induction false} WeightedIsProportional(fills: seq<Fill>, prices: Prices, spread: real, commission: real)
    requires -20000.0 < spread < 20000.0
    requires FillsFrom(fills, prices, SpreadCross(spread, commission))
    ensures WeightedSlippage(fills, prices) == spread / BPS / 2.0 * MeasuredNotional(fills, prices)
    ensures 0.0 <= MeasuredNotional(fills, prices) && (fills != [] ==> 0.0 < MeasuredNotional(fills, prices))
  {
    hide FillOrder, Slippage, Measurable;
    if fills != [] {
      var front, f := fills[..|fills| - 1], fills[|fills| - 1];
      assert forall k :: k in front ==> k in fills;
      WeightedIsProportional(front, prices, spread, commission);
      assert f in fills;
      var o: Order :| 0 < o.quantity && o.symbol in prices && 0.0 < prices[o.symbol]
                      && f == FillOrder(SpreadCross(spread, commission), o, prices[o.symbol]);
      SlippageOfFill(spread, commission, o, prices);
      var k, m, n := spread / BPS / 2.0, MeasuredNotional(front, prices), f.Notional();
      assert k * (m + n) == k * m + k * n;
    }
  }

  lemma Cancel(w: real, k: real, m: real)
    requires 0.0 < m && w == k * m
    ensures w / m == k
  {
  }

  /** With decisions priced at the market, the shortfall reported is exactly half the spread
      whenever anything fills, whatever the mix of buys and sells, and 0 otherwise. */
  lemma ShortfallIsHalfTheSpread(spread: real, commission: real, allowShortCash: bool, mandate: RebalanceMandate, account: Account, market: MarketSnapshot)
    requires DistinctSymbols(mandate.targets)
    requires -20000.0 < spread < 20000.0
    requires market.decisionPrices == market.prices
    requires Simulate(SpreadCross(spread, commission), allowShortCash, mandate, account, market).Success?
    ensures var report := Simulate(SpreadCross(spread, commission), allowShortCash, mandate, account, market).value;
      report.implementationShortfallBps == if report.fills == [] then 0.0 else spread / 2.0
  {
    var model := SpreadCross(spread, commission);
    hide Simulate, SizeOrders, WorkAll, Rebuilt, FillsFrom, WeightedSlippage, MeasuredNotional;
    ReportedBook(model, allowShortCash, mandate, account, market, "");
    ReportFills(model, allowShortCash, mandate, account, market);
    var fills := Simulate(model, allowShortCash, mandate, account, market).value.fills;
    WeightedIsProportional(fills, market.prices, spread, commission);
    if fills != [] {
      Cancel(WeightedSlippage(fills, market.prices), spread / BPS / 2.0, MeasuredNotional(fills, market.prices));
    } else {
      NothingMeasured(market.prices);
    }
  }

  lemma NothingMeasured(prices: Prices)
    ensures MeasuredNotional([], prices) == 0.0
  {
  }

  // ----- what stays non-negative

  ghost predicate NonNegativePositions(positions: Positions) {
    forall s :: s in positions ==> 0 <= positions[s]
  }

  ghost predicate HoldsSomething(positions: Positions) {
    exists s :: s in positions && 0 < positions[s]
  }

  /** Nothing owed and nothing short; with `owning`, something owned as well. */
  ghost predicate Solvent(cash: real, positions: Positions, owning: bool) {
    0.0 <= cash && NonNegativePositions(positions) && (owning ==> 0.0 < cash || HoldsSomething(positions))
  }

  /** A share sold covers its commission; with `owning`, it leaves something over. */
  ghost predicate SalePays(model: FillModel, price: real, owning: bool) {
    model.SpreadCross? ==>
      var proceeds := CrossedPrice(model, Sell, price);
      model.commissionPerShare <= proceeds && (owning ==> model.commissionPerShare < proceeds)
  }

  ghost predicate SalesPay(model: FillModel, prices: Prices, owning: bool) {
    forall s :: s in prices && 0.0 < prices[s] ==> SalePays(model, prices[s], owning)
  }

  /** No order sells more than is held. */
  ghost predicate SalesCovered(orders: seq<Order>, positions: Positions) {
    forall o :: o in orders && o.side == Sell ==> o.quantity <= Held(positions, o.symbol)
  }

  lemma BuyStaysSolvent(book: Book, o: Order, prices: Prices, model: FillModel, owning: bool)
    requires Solvent(book.cash, book.positions, owning) && o.side == Buy && 0 < o.quantity && o.symbol in prices
    requires var f := FillOrder(model, o, prices[o.symbol]); !CannotAfford(f, o, book.cash, false)
    ensures var after := Settle(book, FillOrder(model, o, prices[o.symbol])); Solvent(after.cash, after.positions, owning)
  {
    hide CrossedPrice;
    var f := FillOrder(model, o, prices[o.symbol]);
    var after := Settle(book, f);
    assert f.Notional() == f.Payment();
    assert 0 < after.positions[o.symbol];
    assert HoldsSomething(after.positions);
  }

  lemma SellStaysSolvent(book: Book, o: Order, prices: Prices, model: FillModel, owning: bool)
    requires Solvent(book.cash, book.positions, owning) && o.side == Sell && 0 < o.quantity <= Held(book.positions, o.symbol)
    requires o.symbol in prices && 0.0 < prices[o.symbol] && SalesPay(model, prices, owning)
    ensures var after := Settle(book, FillOrder(model, o, prices[o.symbol])); Solvent(after.cash, after.positions, owning)
  {
    var p := CrossedPrice(model, Sell, prices[o.symbol]);
    var c := if model.Instant? then 0.0 else model.commissionPerShare;
    assert 0.0 < p && SalePays(model, prices[o.symbol], owning);
    assert c <= p && (owning ==> c < p);
    hide CrossedPrice;
    var f := FillOrder(model, o, prices[o.symbol]);
    var q := o.quantity as real;
    NonNegative(p - c, q);
    if c < p { PositiveProduct(p - c, q, (p - c) * q); }
    assert (p - c) * q == p * q - c * q;
    assert f.quantity as real == -q;
    assert f.Payment() == -(q * p);
  }

  lemma {:induction false} WorkStaysSolvent(book: Book, orders: seq<Order>, prices: Prices, model: FillModel, owning: bool)
    requires Solvent(book.cash, book.positions, owning) && book.fills == []
    requires DistinctOrders(orders) && UsableOrders(orders, prices) && SalesCovered(orders, book.positions)
    requires SalesPay(model, prices, owning)
    ensures var after := WorkAll(book, orders, prices, model, false); Solvent(after.cash, after.positions, owning)
  {
    hide Solvent, SalesPay, FillOrder, CannotAfford, Settle;
    if orders != [] {
      var front, o := orders[..|orders| - 1], orders[|orders| - 1];
      assert o in orders && forall k :: k in front ==> k in orders;
      var before := WorkAll(book, front, prices, model, false);
      WorkStaysSolvent(book, front, prices, model, owning);
      PositionsAfter(book, front, prices, model, false, o.symbol);
      NamedInSplit(orders, o.symbol);
      var f := FillOrder(model, o, prices[o.symbol]);
      if o.side == Sell {
        SellsAreAffordable(f, o, before.cash);
        SellStaysSolvent(before, o, prices, model, owning);
      } else if !CannotAfford(f, o, before.cash, false) {
        BuyStaysSolvent(before, o, prices, model, owning);
      }
    }
  }

  lemma SellsAreAffordable(fill: Fill, o: Order, cash: real)
    requires o.side == Sell
    ensures !CannotAfford(fill, o, cash, false)
  {
  }

  // ----- the whole call

  ghost predicate NonNegativeTargets(targets: seq<TargetWeight>) {
    forall t :: t in targets ==> 0.0 <= t.targetWeight
  }

  ghost predicate AllPriced(positions: Positions, prices: Prices) {
    forall s :: s in positions ==> s in prices && 0.0 < prices[s]
  }

  lemma SaleCovered(t: TargetWeight, account: Account, prices: Prices, value: real, minNotional: real)
    requires 0.0 <= t.targetWeight && 0.0 < value && NonNegativePositions(account.positions)
    ensures var sized := SizeTarget(t, account, prices, value, minNotional);
      sized.Sent? && sized.order.side == Sell ==> sized.order.quantity <= Held(account.positions, t.symbol)
  {
    var sized := SizeTarget(t, account, prices, value, minNotional);
    if sized.Sent? {
      DesiredBounds(t.targetWeight, value, prices[t.symbol]);
      hide DesiredShares;
    }
  }

  lemma SizedSalesCovered(mandate: RebalanceMandate, account: Account, market: MarketSnapshot)
    requires DistinctSymbols(mandate.targets) && NonNegativeTargets(mandate.targets)
    requires SizeOrders(mandate, account, market).Success? && NonNegativePositions(account.positions)
    ensures SalesCovered(SizeOrders(mandate, account, market).value.0, account.positions)
  {
    hide SizeTarget, TotalValue, SizeOrders;
    var value := TotalValue(account, market.prices);
    SizedValue(mandate, account, market);
    SizedOrders(mandate, account, market);
    var orders := SizeOrders(mandate, account, market).value.0;
    forall o | o in orders && o.side == Sell ensures o.quantity <= Held(account.positions, o.symbol) {
      var t :| t in mandate.targets && SizeTarget(t, account, market.prices, value, mandate.minTradeNotional) == Sent(o);
      SaleCovered(t, account, market.prices, value, mandate.minTradeNotional);
      SizedSymbol(t, account, market.prices, value, mandate.minTradeNotional);
    }
  }

  lemma {:induction false} WorkStaysPriced(book: Book, orders: seq<Order>, prices: Prices, model: FillModel, allowShortCash: bool)
    requires UsableOrders(orders, prices) && AllPriced(book.positions, prices)
    ensures AllPriced(WorkAll(book, orders, prices, model, allowShortCash).positions, prices)
  {
    hide CannotAfford;
    if orders != [] {
      var front, o := orders[..|orders| - 1], orders[|orders| - 1];
      assert o in orders && forall k :: k in front ==> k in orders;
      WorkStaysPriced(book, front, prices, model, allowShortCash);
    }
  }

  lemma DroppingZerosStaysSolvent(cash: real, positions: Positions, prices: Prices, owning: bool)
    requires Solvent(cash, positions, owning) && AllPriced(positions, prices)
    ensures Solvent(cash, PricedPositions(positions, prices), owning)
    ensures PricedPositions(positions, prices) == NonZeroPositions(positions)
    ensures AllPriced(PricedPositions(positions, prices), prices)
  {
    if HoldsSomething(positions) {
      var s :| s in positions && 0 < positions[s];
      assert s in PricedPositions(positions, prices);
      assert HoldsSomething(PricedPositions(positions, prices));
    }
  }

  /** A solvent, fully priced account stays so through execution, and rebuilding it from the
      report's positions loses none of them. */
  lemma ExecutionStaysSolvent(model: FillModel, mandate: RebalanceMandate, account: Account, market: MarketSnapshot, owning: bool)
    requires DistinctSymbols(mandate.targets) && NonNegativeTargets(mandate.targets)
    requires Solvent(account.cash, account.positions, owning) && AllPriced(account.positions, market.prices)
    requires SalesPay(model, market.prices, owning)
    requires Simulate(model, false, mandate, account, market).Success?
    ensures SizeOrders(mandate, account, market).Success?
    ensures var report := Simulate(model, false, mandate, account, market).value;
      && Solvent(Rebuilt(report).cash, Rebuilt(report).positions, owning)
      && AllPriced(Rebuilt(report).positions, market.prices)
      && Rebuilt(report).positions == NonZeroPositions(WorkedBook(model, false, mandate, account, market).positions)
  {
    assert NonNegativePositions(account.positions);
    hide Simulate, SizeOrders, WorkAll, Rebuilt, Solvent, AllPriced;
    hide SalesPay, UsableOrders, SalesCovered, NonNegativePositions, PricedPositions, NonZeroPositions;
    ReportedBook(model, false, mandate, account, market, "");
    SizedAreUsable(mandate, account, market);
    SizedSalesCovered(mandate, account, market);
    SizedOrders(mandate, account, market);
    var (orders, rejections) := SizeOrders(mandate, account, market).value;
    var start := Book(account.positions, account.cash, [], rejections);
    var book := WorkedBook(model, false, mandate, account, market);
    WorkStaysSolvent(start, orders, market.prices, model, owning);
    WorkStaysPriced(start, orders, market.prices, model, false);
    DroppingZerosStaysSolvent(book.cash, book.positions, market.prices, owning);
  }

  /** A fully priced account that owes nothing and owns something is worth something. */
  lemma SolventIsPositive(account: Account, prices: Prices)
    requires Solvent(account.cash, account.positions, true) && AllPriced(account.positions, prices)
    ensures 0.0 < TotalValue(account, prices)
  {
    hide Sum;
    var f := ValueOf(account.positions, prices);
    forall s | s in account.positions ensures 0.0 <= f(s) {
      NonNegative(account.positions[s] as real, prices[s]);
    }
    SumNonNegative(account.positions.Keys, f);
    if HoldsSomething(account.positions) {
      var s :| s in account.positions && 0 < account.positions[s];
      PositiveProduct(account.positions[s] as real, prices[s], f(s));
      SumAtLeastOne(account.positions.Keys, s, f);
    }
  }

  lemma SolventIsNonNegative(account: Account, prices: Prices)
    requires Solvent(account.cash, account.positions, false) && AllPriced(account.positions, prices)
    ensures 0.0 <= TotalValue(account, prices)
  {
    hide Sum;
    var f := ValueOf(account.positions, prices);
    forall s | s in account.positions ensures 0.0 <= f(s) {
      NonNegative(account.positions[s] as real, prices[s]);
    }
    SumNonNegative(account.positions.Keys, f);
  }
}
