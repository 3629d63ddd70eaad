/** What the simulated executor does with each target, without reference to how it sizes,
    works or reports. */
module ExecutionOutcomes {
  import opened Arithmetic
  import opened Ordering
  import opened Mandates
  import opened Execution
  import opened ExecutionTheorems
  import opened ExecutionLedger
  import opened Sums

  // ----- the shares wanted

  function Worth(shares: int, price: real): real {
    shares as real * price
  }

  /** The whole number of shares that comes nearest a sum of money without passing it. */
  ghost predicate Affords(n: int, notional: real, price: real) {
    if 0.0 <= notional then 0 <= n && Worth(n, price) <= notional < Worth(n + 1, price)
    else n <= 0 && Worth(n - 1, price) < notional <= Worth(n, price)
  }

  ghost predicate IsDesired(n: int, weight: real, value: real, price: real) {
    Affords(n, weight * value, price)
  }

  lemma DesiredUnique(m: int, n: int, notional: real, price: real)
    requires 0.0 < price && Affords(m, notional, price) && Affords(n, notional, price)
    ensures m == n
  {
    hide Worth;
    if m < n { MoreIsWorthMore(m, n, price); }
    if n < m { MoreIsWorthMore(n, m, price); }
  }

  lemma MoreIsWorthMore(m: int, n: int, price: real)
    requires m < n && 0.0 < price
    ensures Worth(m + 1, price) <= Worth(n, price) && Worth(m, price) <= Worth(n - 1, price)
  {
    NonNegative((n - m - 1) as real, price);
    assert (n - m - 1) as real * price == n as real * price - (m + 1) as real * price;
    assert (n - m - 1) as real * price == (n - 1) as real * price - m as real * price;
  }

  lemma NextShare(n: int, price: real)
    ensures Worth(n + 1, price) == Worth(n, price) + price
    ensures Worth(n - 1, price) == Worth(n, price) - price
    ensures Worth(-n, price) == -Worth(n, price)
  {
    assert (n + 1) as real == n as real + 1.0 && (n - 1) as real == n as real - 1.0 && (-n) as real == -(n as real);
  }

  lemma SharesAreWorth(notional: real, price: real)
    requires 0.0 <= notional && 0.0 < price
    ensures var n := Truncate(notional / price);
      0 <= n && Worth(n, price) <= notional && notional - price < Worth(n, price)
  {
    SharesFor(notional, price);
  }

  lemma DesiredExactly(weight: real, value: real, price: real)
    requires 0.0 < price
    ensures IsDesired(DesiredShares(weight, value, price), weight, value, price)
  {
    TruncatedAffords(weight * value, price);
    hide Truncate, Worth;
  }

  lemma TruncatedAffords(notional: real, price: real)
    requires 0.0 < price
    ensures Affords(Truncate(notional / price), notional, price)
  {
    hide Truncate, Worth;
    if 0.0 <= notional {
      SharesAreWorth(notional, price);
      NextShare(Truncate(notional / price), price);
    } else {
      SharesAreWorth(-notional, price);
      TruncateNegative(notional, price);
      NextShare(Truncate(-notional / price), price);
      NextShare(Truncate(notional / price), price);
    }
  }

  lemma TruncateNegative(notional: real, price: real)
    requires 0.0 < price && notional < 0.0
    ensures Truncate(notional / price) == -Truncate(-notional / price)
  {
    var x := notional / price;
    assert x * price == notional;
    if 0.0 <= x { NonNegative(x, price); }
    assert -notional / price == -x;
  }

  // ----- what is sent and what is refused

  /** A trade is wanted, and big enough. */
  ghost predicate Trades(n: int, held: int, price: real, minNotional: real) {
    n != held && AbsInt(n - held) as real * price >= minNotional
  }

  /** Exactly how a priced target is sized: an order for the difference between the shares
      wanted and the shares held if that is worth trading, a refusal if it is not, and
      nothing if there is none. */
  lemma SizingExactly(mandate: RebalanceMandate, account: Account, market: MarketSnapshot, t: TargetWeight, n: int)
    requires DistinctSymbols(mandate.targets) && SizeOrders(mandate, account, market).Success?
    requires t in mandate.targets && t.symbol in market.prices && 0.0 < market.prices[t.symbol]
    requires IsDesired(n, t.targetWeight, TotalValue(account, market.prices), market.prices[t.symbol])
    ensures var (orders, refusals) := SizeOrders(mandate, account, market).value;
      var held, price := Held(account.positions, t.symbol), market.prices[t.symbol];
      && (NamedIn(orders, t.symbol) <==> Trades(n, held, price, mandate.minTradeNotional))
      && (forall o :: o in orders && o.symbol == t.symbol ==>
            o == Order(t.symbol, if n > held then Buy else Sell, if n > held then n - held else held - n, price))
      && (Rejection(t.symbol, BelowMinNotional) in refusals <==> n != held && !Trades(n, held, price, mandate.minTradeNotional))
      && Rejection(t.symbol, NoPrice) !in refusals
  {
    hide *;
    var value := TotalValue(account, market.prices);
    DesiredIs(n, t.targetWeight, value, market.prices[t.symbol]);
    SizedAs(t, account, market.prices, value, mandate.minTradeNotional);
    OneOutcome(mandate, account, market, t);
  }

  lemma DesiredIs(n: int, weight: real, value: real, price: real)
    requires 0.0 < price && IsDesired(n, weight, value, price)
    ensures n == DesiredShares(weight, value, price)
  {
    DesiredExactly(weight, value, price);
    DesiredUnique(n, DesiredShares(weight, value, price), weight * value, price);
  }

  lemma SizedAs(t: TargetWeight, account: Account, prices: Prices, value: real, minNotional: real)
    requires t.symbol in prices && 0.0 < prices[t.symbol]
    ensures var n, held, price := DesiredShares(t.targetWeight, value, prices[t.symbol]), Held(account.positions, t.symbol), prices[t.symbol];
      SizeTarget(t, account, prices, value, minNotional)
      == if Trades(n, held, price, minNotional)
         then Sent(Order(t.symbol, if n > held then Buy else Sell, if n > held then n - held else held - n, price))
         else if n != held then Refused(Rejection(t.symbol, BelowMinNotional)) else NoTrade
  {
    hide DesiredShares;
  }

  /** The orders and refusals in a target's name are those it was sized to. */
  lemma OneOutcome(mandate: RebalanceMandate, account: Account, market: MarketSnapshot, t: TargetWeight)
    requires DistinctSymbols(mandate.targets) && SizeOrders(mandate, account, market).Success? && t in mandate.targets
    ensures var (orders, refusals) := SizeOrders(mandate, account, market).value;
      var sized := SizeTarget(t, account, market.prices, TotalValue(account, market.prices), mandate.minTradeNotional);
      && (NamedIn(orders, t.symbol) <==> sized.Sent?)
      && (forall o :: o in orders && o.symbol == t.symbol ==> sized == Sent(o))
      && forall code :: Rejection(t.symbol, code) in refusals <==> sized == Refused(Rejection(t.symbol, code))
  {
    hide SizeTarget, TotalValue, SizeOrders;
    var value := TotalValue(account, market.prices);
    SizedOrders(mandate, account, market);
    SizedRefusals(mandate, account, market);
    SizedName(t, account, market.prices, value, mandate.minTradeNotional);
    var (orders, refusals) := SizeOrders(mandate, account, market).value;
    forall o | o in orders && o.symbol == t.symbol
      ensures SizeTarget(t, account, market.prices, value, mandate.minTradeNotional) == Sent(o)
    {
      var u :| u in mandate.targets && SizeTarget(u, account, market.prices, value, mandate.minTradeNotional) == Sent(o);
      SizedName(u, account, market.prices, value, mandate.minTradeNotional);
      SameTarget(mandate.targets, t, u);
    }
    forall code | Rejection(t.symbol, code) in refusals
      ensures SizeTarget(t, account, market.prices, value, mandate.minTradeNotional) == Refused(Rejection(t.symbol, code))
    {
      var u :| u in mandate.targets && SizeTarget(u, account, market.prices, value, mandate.minTradeNotional) == Refused(Rejection(t.symbol, code));
      SizedName(u, account, market.prices, value, mandate.minTradeNotional);
      SameTarget(mandate.targets, t, u);
    }
    NamedByMember(orders, t.symbol);
  }

  lemma NamedByMember(orders: seq<Order>, s: string)
    ensures NamedIn(orders, s) <==> exists o :: o in orders && o.symbol == s
  {
    if NamedIn(orders, s) {
      var i :| 0 <= i < |orders| && orders[i].symbol == s;
      assert orders[i] in orders;
    }
  }

  lemma SizedName(t: TargetWeight, account: Account, prices: Prices, value: real, minNotional: real)
    ensures var sized := SizeTarget(t, account, prices, value, minNotional);
      && (sized.Sent? ==> sized.order.symbol == t.symbol)
      && (sized.Refused? ==> sized.rejection.symbol == t.symbol)
  {
    hide DesiredShares;
  }

  lemma SameTarget(targets: seq<TargetWeight>, t: TargetWeight, u: TargetWeight)
    requires DistinctSymbols(targets) && t in targets && u in targets && t.symbol == u.symbol
    ensures t == u
  {
    var i :| 0 <= i < |targets| && targets[i] == t;
    var j :| 0 <= j < |targets| && targets[j] == u;
  }

  /** A target without a usable price is refused for that and sends no order; and nothing is
      sent or refused in a name that is not a target. */
  lemma UnpricedExactly(mandate: RebalanceMandate, account: Account, market: MarketSnapshot, s: string, code: RejectionCode)
    requires DistinctSymbols(mandate.targets) && SizeOrders(mandate, account, market).Success?
    requires s in market.prices ==> market.prices[s] <= 0.0
    ensures var (orders, refusals) := SizeOrders(mandate, account, market).value;
      && !NamedIn(orders, s)
      && (Rejection(s, code) in refusals <==> code == NoPrice && exists t :: t in mandate.targets && t.symbol == s)
  {
    hide TotalValue, SizeOrders, DesiredShares;
    var (orders, refusals) := SizeOrders(mandate, account, market).value;
    if t :| t in mandate.targets && t.symbol == s {
      OneOutcome(mandate, account, market, t);
    } else {
      NotATarget(mandate, account, market, s, code);
    }
  }

  lemma NotATarget(mandate: RebalanceMandate, account: Account, market: MarketSnapshot, s: string, code: RejectionCode)
    requires DistinctSymbols(mandate.targets) && SizeOrders(mandate, account, market).Success?
    requires forall t :: t in mandate.targets ==> t.symbol != s
    ensures var (orders, refusals) := SizeOrders(mandate, account, market).value;
      !NamedIn(orders, s) && Rejection(s, code) !in refusals
  {
    hide SizeTarget, TotalValue, SizeOrders;
    var value := TotalValue(account, market.prices);
    SizedOrders(mandate, account, market);
    SizedRefusals(mandate, account, market);
    var (orders, refusals) := SizeOrders(mandate, account, market).value;
    forall o | o in orders ensures o.symbol != s {
      var t :| t in mandate.targets && SizeTarget(t, account, market.prices, value, mandate.minTradeNotional) == Sent(o);
      SizedName(t, account, market.prices, value, mandate.minTradeNotional);
    }
    NamedByMember(orders, s);
    if Rejection(s, code) in refusals {
      var t :| t in mandate.targets && SizeTarget(t, account, market.prices, value, mandate.minTradeNotional) == Refused(Rejection(s, code));
      SizedName(t, account, market.prices, value, mandate.minTradeNotional);
      assert false;
    }
  }

  // ----- what the cash reaches

  predicate Precedes(a: string, b: string) {
    Leq(a, b) && a != b
  }

  ghost predicate OneByOne(orders: seq<Order>) {
    forall i, j :: 0 <= i < j < |orders| ==> Precedes(orders[i].symbol, orders[j].symbol)
  }

  /** What the fills in names before `s` cost: shares at their price, and commission. */
  function OutlayBefore(fills: seq<Fill>, s: string): real {
    if fills == [] then 0.0
    else
      var f := fills[|fills| - 1];
      OutlayBefore(fills[..|fills| - 1], s) + (if Precedes(f.symbol, s) then f.Payment() + f.commission else 0.0)
  }

  lemma OutlaySnoc(fills: seq<Fill>, f: Fill, s: string)
    ensures OutlayBefore(fills + [f], s) == OutlayBefore(fills, s) + if Precedes(f.symbol, s) then f.Payment() + f.commission else 0.0
  {
    assert (fills + [f])[..|fills|] == fills;
  }

  /** One order either is turned away or settles its fill. */
  lemma WorkOne(book: Book, o: Order, prices: Prices, model: FillModel, allowShortCash: bool)
    requires o.symbol in prices
    ensures var f, after := FillOrder(model, o, prices[o.symbol]), Work(book, o, prices, model, allowShortCash);
      && f.symbol == o.symbol
      && if CannotAfford(f, o, book.cash, allowShortCash)
         then after.cash == book.cash && after.fills == book.fills && after.rejections == book.rejections + [Rejection(o.symbol, InsufficientCash)]
         else after.cash == book.cash - (f.Payment() + f.commission) && after.fills == book.fills + [f] && after.rejections == book.rejections
  {
    hide CrossedPrice;
  }

  lemma {:induction false} CashSpent(book: Book, orders: seq<Order>, prices: Prices, model: FillModel, allowShortCash: bool, s: string)
    requires book.fills == [] && forall o :: o in orders ==> o.symbol in prices && Precedes(o.symbol, s)
    ensures var after := WorkAll(book, orders, prices, model, allowShortCash); after.cash == book.cash - OutlayBefore(after.fills, s)
  {
    hide Work, CannotAfford, FillOrder, Precedes;
    if orders != [] {
      var front, o := orders[..|orders| - 1], orders[|orders| - 1];
      assert o in orders && forall k :: k in front ==> k in orders;
      CashSpent(book, front, prices, model, allowShortCash, s);
      var before := WorkAll(book, front, prices, model, allowShortCash);
      WorkOne(before, o, prices, model, allowShortCash);
      OutlaySnoc(before.fills, FillOrder(model, o, prices[o.symbol]), s);
    } else {
      NoWork(book, prices, model, allowShortCash);
    }
  }

  /** Nothing done so far is in the name of an order still to come. */
  lemma {:induction false} NotYet(book: Book, orders: seq<Order>, prices: Prices, model: FillModel, allowShortCash: bool, s: string)
    requires book.fills == [] && Rejection(s, InsufficientCash) !in book.rejections
    requires forall o :: o in orders ==> o.symbol in prices && o.symbol != s
    ensures var after := WorkAll(book, orders, prices, model, allowShortCash);
      && (forall g :: g in after.fills ==> g.symbol != s)
      && Rejection(s, InsufficientCash) !in after.rejections
  {
    hide Work, CannotAfford, FillOrder;
    if orders != [] {
      var front, o := orders[..|orders| - 1], orders[|orders| - 1];
      assert o in orders && forall k :: k in front ==> k in orders;
      NotYet(book, front, prices, model, allowShortCash, s);
      WorkOne(WorkAll(book, front, prices, model, allowShortCash), o, prices, model, allowShortCash);
    } else {
      NoWork(book, prices, model, allowShortCash);
    }
  }

  /** What becomes of an order: it is turned away for cash exactly when it is a purchase that
      costs more than what the fills in earlier names left, and else it fills, once. */
  ghost predicate Answered(o: Order, f: Fill, after: Book, cash: real, allowShortCash: bool) {
    var turnedAway := CannotAfford(f, o, cash - OutlayBefore(after.fills, o.symbol), allowShortCash);
    && (Rejection(o.symbol, InsufficientCash) in after.rejections <==> turnedAway)
    && (f in after.fills <==> !turnedAway)
    && forall g :: g in after.fills && g.symbol == o.symbol ==> g == f
  }

  lemma {:induction false} OrderAnswered(book: Book, orders: seq<Order>, prices: Prices, model: FillModel, allowShortCash: bool, i: nat)
    requires i < |orders| && OneByOne(orders) && book.fills == []
    requires forall o :: o in orders ==> o.symbol in prices
    requires Rejection(orders[i].symbol, InsufficientCash) !in book.rejections
    ensures orders[i].symbol in prices
    ensures Answered(orders[i], FillOrder(model, orders[i], prices[orders[i].symbol]), WorkAll(book, orders, prices, model, allowShortCash), book.cash, allowShortCash)
  {
    hide Work, FillOrder, CannotAfford, Precedes, Answered;
    var n := |orders| - 1;
    var front, last, o := orders[..n], orders[n], orders[i];
    assert o in orders && last in orders && forall k :: k in front ==> k in orders;
    var before, after := WorkAll(book, front, prices, model, allowShortCash), WorkAll(book, orders, prices, model, allowShortCash);
    WorkOne(before, last, prices, model, allowShortCash);
    var f := FillOrder(model, last, prices[last.symbol]);
    if i == n {
      forall k | k in front ensures Precedes(k.symbol, o.symbol) && k.symbol != o.symbol {
        var j :| 0 <= j < n && orders[j] == k;
        Apart(orders[j].symbol, orders[n].symbol);
      }
      CashSpent(book, front, prices, model, allowShortCash, o.symbol);
      NotYet(book, front, prices, model, allowShortCash, o.symbol);
      AnsweredNow(o, f, before, after, book.cash, allowShortCash);
    } else {
      Apart(orders[i].symbol, orders[n].symbol);
      assert front[i] == o;
      OneByOneFront(orders);
      OrderAnswered(book, front, prices, model, allowShortCash, i);
      WorkOne(book, o, prices, model, allowShortCash);
      AnswerStays(o, FillOrder(model, o, prices[o.symbol]), before, after, f, book.cash, allowShortCash);
    }
  }

  lemma OneByOneFront(orders: seq<Order>)
    requires orders != [] && OneByOne(orders)
    ensures OneByOne(orders[..|orders| - 1])
  {
    hide Precedes;
  }

  lemma Apart(a: string, b: string)
    requires Precedes(a, b)
    ensures a != b && !Precedes(b, a)
  {
    if Leq(b, a) { LeqAntisymmetric(a, b); }
  }

  lemma AnsweredNow(o: Order, f: Fill, before: Book, after: Book, cash: real, allowShortCash: bool)
    requires f.symbol == o.symbol && before.cash == cash - OutlayBefore(before.fills, o.symbol)
    requires (forall g :: g in before.fills ==> g.symbol != o.symbol) && Rejection(o.symbol, InsufficientCash) !in before.rejections
    requires if CannotAfford(f, o, before.cash, allowShortCash)
             then after.fills == before.fills && after.rejections == before.rejections + [Rejection(o.symbol, InsufficientCash)]
             else after.fills == before.fills + [f] && after.rejections == before.rejections
    ensures Answered(o, f, after, cash, allowShortCash)
  {
    hide CannotAfford, Precedes;
    OutlaySnoc(before.fills, f, o.symbol);
    assert !Precedes(f.symbol, o.symbol) by { NotBeforeItself(o.symbol); }
    hide OutlayBefore;
  }

  lemma NotBeforeItself(s: string)
    ensures !Precedes(s, s)
  {
  }

  lemma AnswerStays(o: Order, g: Fill, before: Book, after: Book, f: Fill, cash: real, allowShortCash: bool)
    requires Answered(o, g, before, cash, allowShortCash) && g.symbol == o.symbol
    requires f.symbol != o.symbol && !Precedes(f.symbol, o.symbol)
    requires || (after.fills == before.fills && after.rejections == before.rejections + [Rejection(f.symbol, InsufficientCash)])
             || (after.fills == before.fills + [f] && after.rejections == before.rejections)
    ensures Answered(o, g, after, cash, allowShortCash)
  {
    hide CannotAfford, Precedes;
    OutlaySnoc(before.fills, f, o.symbol);
    hide OutlayBefore;
  }

  lemma SizedOneByOne(mandate: RebalanceMandate, account: Account, market: MarketSnapshot)
    requires DistinctSymbols(mandate.targets) && SizeOrders(mandate, account, market).Success?
    ensures OneByOne(SizeOrders(mandate, account, market).value.0)
  {
    hide TotalValue, SizeTarget;
    SizedOrders(mandate, account, market);
    BySymbolOrders();
    Sorting.SortSorted(BySymbol(), OrdersFor(mandate.targets, account, market.prices, TotalValue(account, market.prices), mandate.minTradeNotional));
  }

  lemma BySymbolOrders()
    ensures Sorting.TotalPreorder(BySymbol())
  {
    var leq := BySymbol();
    forall x, y ensures leq(x, y) || leq(y, x) { LeqTotal(x.symbol, y.symbol); }
    forall x, y, z | leq(x, y) && leq(y, z) ensures leq(x, z) { LeqTransitive(x.symbol, y.symbol, z.symbol); }
  }

  // ----- one target, from mandate to report

  /** What one share changes hands for: the market's price, or half the spread beyond it,
      unless that is not a price. */
  function UnitPrice(model: FillModel, buying: bool, price: real): real {
    match model
    case Instant => price
    case SpreadCross(spread, _) =>
      var crossed := price * (1.0 + (if buying then spread else -spread) / 20000.0);
      if crossed <= 0.0 then price else crossed
  }

  function CommissionOn(model: FillModel, shares: int): real {
    match model
    case Instant => 0.0
    case SpreadCross(_, perShare) => perShare * shares as real
  }

  lemma UnitPriceIs(model: FillModel, side: Side, price: real)
    ensures CrossedPrice(model, side, price) == UnitPrice(model, side == Buy, price)
  {
    if model.SpreadCross? {
      var k := model.spreadBps;
      assert price * (k / BPS) / 2.0 == price * (k / 20000.0);
      assert price * (1.0 + k / 20000.0) == price + price * (k / 20000.0);
      assert price * (1.0 + -k / 20000.0) == price - price * (k / 20000.0);
    }
  }

  /** The fill of a trade from `held` shares to `n`. */
  function FillOfTrade(model: FillModel, s: string, held: int, n: int, price: real): Fill {
    Fill(s, n - held, UnitPrice(model, n > held, price), CommissionOn(model, if n > held then n - held else held - n))
  }

  /** A purchase costs more than the cash there is. */
  ghost predicate TooDear(model: FillModel, held: int, n: int, price: real, cash: real, allowShortCash: bool) {
    n > held && !allowShortCash && Worth(n - held, UnitPrice(model, true, price)) + CommissionOn(model, n - held) > cash
  }

  lemma FillIs(model: FillModel, s: string, held: int, n: int, price: real, cash: real, allowShortCash: bool)
    requires n != held
    ensures var o := Order(s, if n > held then Buy else Sell, if n > held then n - held else held - n, price);
      && FillOrder(model, o, price) == FillOfTrade(model, s, held, n, price)
      && o.SignedQuantity() == n - held
      && (CannotAfford(FillOrder(model, o, price), o, cash, allowShortCash) <==> TooDear(model, held, n, price, cash, allowShortCash))
  {
    UnitPriceIs(model, if n > held then Buy else Sell, price);
    hide CrossedPrice, UnitPrice;
  }

  /** Exactly what execution does with one priced target. It ends at the shares wanted if
      they are worth trading for and, to buy, can be paid for with what the fills in earlier
      names left; else it stays as it is. A purchase that cannot be paid for is the one
      thing refused for want of cash, and the trade made is the one fill in its name, half
      the spread beyond the price, with its commission. */
  lemma SimulatedExactly(model: FillModel, allowShortCash: bool, mandate: RebalanceMandate, account: Account, market: MarketSnapshot, t: TargetWeight, n: int)
    requires DistinctSymbols(mandate.targets) && Simulate(model, allowShortCash, mandate, account, market).Success?
    requires t in mandate.targets && t.symbol in market.prices && 0.0 < market.prices[t.symbol]
    requires IsDesired(n, t.targetWeight, TotalValue(account, market.prices), market.prices[t.symbol])
    ensures var report := Simulate(model, allowShortCash, mandate, account, market).value;
      var s, held, price := t.symbol, Held(account.positions, t.symbol), market.prices[t.symbol];
      var wanted := Trades(n, held, price, mandate.minTradeNotional);
      var dear := TooDear(model, held, n, price, account.cash - OutlayBefore(report.fills, s), allowShortCash);
      && Held(Rebuilt(report).positions, s) == (if wanted && !dear then n else held)
      && (Rejection(s, InsufficientCash) in report.rejections <==> wanted && dear)
      && (FillOfTrade(model, s, held, n, price) in report.fills <==> wanted && !dear)
      && (forall g :: g in report.fills && g.symbol == s ==> g == FillOfTrade(model, s, held, n, price))
  {
    hide *;
    ReportedBook(model, allowShortCash, mandate, account, market, t.symbol);
    ReportedRejections(model, allowShortCash, mandate, account, market, t.symbol);
    SizingExactly(mandate, account, market, t, n);
    var orders := SizeOrders(mandate, account, market).value.0;
    if NamedIn(orders, t.symbol) {
      TradedTarget(model, allowShortCash, mandate, account, market, t, n);
    } else {
      UntradedName(model, allowShortCash, mandate, account, market, t.symbol);
      NotThisFill(WorkedBook(model, allowShortCash, mandate, account, market).fills, t.symbol,
                  FillOfTrade(model, t.symbol, Held(account.positions, t.symbol), n, market.prices[t.symbol]));
      FillNamed(model, t.symbol, Held(account.positions, t.symbol), n, market.prices[t.symbol]);
    }
  }

  lemma FillNamed(model: FillModel, s: string, held: int, n: int, price: real)
    ensures FillOfTrade(model, s, held, n, price).symbol == s
  {
  }

  lemma NotThisFill(fills: seq<Fill>, s: string, f: Fill)
    ensures !WasFilled(fills, s) ==> (forall g :: g in fills ==> g.symbol != s) && (f.symbol == s ==> f !in fills)
  {
  }

  lemma ReportedRejections(model: FillModel, allowShortCash: bool, mandate: RebalanceMandate, account: Account, market: MarketSnapshot, s: string)
    requires Simulate(model, allowShortCash, mandate, account, market).Success? && SizeOrders(mandate, account, market).Success?
    ensures Rejection(s, InsufficientCash) in Simulate(model, allowShortCash, mandate, account, market).value.rejections
            <==> Rejection(s, InsufficientCash) in WorkedBook(model, allowShortCash, mandate, account, market).rejections
  {
    hide SizeOrders, WorkAll, TotalValue;
    var book := WorkedBook(model, allowShortCash, mandate, account, market);
    var report := Simulate(model, allowShortCash, mandate, account, market).value;
    RejectionsReported(mandate.mandateId, book, TotalValue(account, market.prices), market);
    hide Simulate, WorkedBook;
    ReportedBook(model, allowShortCash, mandate, account, market, s);
    assert Rejection(s, InsufficientCash) in multiset(report.rejections) <==> Rejection(s, InsufficientCash) in multiset(book.rejections);
  }

  lemma NoCashRefusals(mandate: RebalanceMandate, account: Account, market: MarketSnapshot, s: string)
    requires SizeOrders(mandate, account, market).Success?
    ensures Rejection(s, InsufficientCash) !in SizeOrders(mandate, account, market).value.1
    ensures DistinctSymbols(mandate.targets) ==> forall o :: o in SizeOrders(mandate, account, market).value.0 ==> o.symbol in market.prices
  {
    hide TotalValue, SizeOrders, DesiredShares;
    SizedRefusals(mandate, account, market);
    if DistinctSymbols(mandate.targets) { SizedOrders(mandate, account, market); }
  }

  lemma TradedTarget(model: FillModel, allowShortCash: bool, mandate: RebalanceMandate, account: Account, market: MarketSnapshot, t: TargetWeight, n: int)
    requires DistinctSymbols(mandate.targets) && SizeOrders(mandate, account, market).Success?
    requires t.symbol in market.prices && NamedIn(SizeOrders(mandate, account, market).value.0, t.symbol)
    requires var held, price := Held(account.positions, t.symbol), market.prices[t.symbol];
      && Trades(n, held, price, mandate.minTradeNotional)
      && forall o :: o in SizeOrders(mandate, account, market).value.0 && o.symbol == t.symbol ==>
           o == Order(t.symbol, if n > held then Buy else Sell, if n > held then n - held else held - n, price)
    ensures var book, held, price := WorkedBook(model, allowShortCash, mandate, account, market), Held(account.positions, t.symbol), market.prices[t.symbol];
      var dear := TooDear(model, held, n, price, account.cash - OutlayBefore(book.fills, t.symbol), allowShortCash);
      && Held(book.positions, t.symbol) == (if dear then held else n)
      && (Rejection(t.symbol, InsufficientCash) in book.rejections <==> dear)
      && (FillOfTrade(model, t.symbol, held, n, price) in book.fills <==> !dear)
      && (forall g :: g in book.fills && g.symbol == t.symbol ==> g == FillOfTrade(model, t.symbol, held, n, price))
  {
    hide SizeOrders, WorkAll, TooDear, FillOfTrade, NamedIn;
    var (orders, refusals) := SizeOrders(mandate, account, market).value;
    var held, price := Held(account.positions, t.symbol), market.prices[t.symbol];
    var i := NamedAt(orders, t.symbol);
    assert orders[i] in orders && n != held;
    hide *;
    var o, start := orders[i], Book(account.positions, account.cash, [], refusals);
    var book := WorkedBook(model, allowShortCash, mandate, account, market);
    NoCashRefusals(mandate, account, market, t.symbol);
    SizedDistinct(mandate, account, market);
    SizedOneByOne(mandate, account, market);
    BookIs(model, allowShortCash, mandate, account, market);
    OrderAnswered(start, orders, market.prices, model, allowShortCash, i);
    PositionsAfter(start, orders, market.prices, model, allowShortCash, t.symbol);
    SignedForOrder(orders, o);
    FillIs(model, t.symbol, held, n, price, account.cash - OutlayBefore(book.fills, t.symbol), allowShortCash);
    FillNamed(model, t.symbol, held, n, price);
    ReadAnswer(o, FillOfTrade(model, t.symbol, held, n, price), book, account.cash, allowShortCash);
  }

  lemma NamedAt(orders: seq<Order>, s: string) returns (i: nat)
    requires NamedIn(orders, s)
    ensures i < |orders| && orders[i].symbol == s
  {
    i :| 0 <= i < |orders| && orders[i].symbol == s;
  }

  lemma SizedDistinct(mandate: RebalanceMandate, account: Account, market: MarketSnapshot)
    requires DistinctSymbols(mandate.targets) && SizeOrders(mandate, account, market).Success?
    ensures DistinctOrders(SizeOrders(mandate, account, market).value.0)
  {
    hide *;
    SizedOrders(mandate, account, market);
  }

  lemma BookIs(model: FillModel, allowShortCash: bool, mandate: RebalanceMandate, account: Account, market: MarketSnapshot)
    requires SizeOrders(mandate, account, market).Success?
    ensures var (orders, refusals) := SizeOrders(mandate, account, market).value;
      WorkedBook(model, allowShortCash, mandate, account, market)
      == WorkAll(Book(account.positions, account.cash, [], refusals), orders, market.prices, model, allowShortCash)
  {
    hide SizeOrders, WorkAll;
  }

  lemma ReadAnswer(o: Order, f: Fill, book: Book, cash: real, allowShortCash: bool)
    requires Answered(o, f, book, cash, allowShortCash) && f.symbol == o.symbol
    ensures var turnedAway := CannotAfford(f, o, cash - OutlayBefore(book.fills, o.symbol), allowShortCash);
      && (Rejection(o.symbol, InsufficientCash) in book.rejections <==> turnedAway)
      && (f in book.fills <==> !turnedAway) && (WasFilled(book.fills, o.symbol) <==> !turnedAway)
      && forall g :: g in book.fills && g.symbol == o.symbol ==> g == f
  {
    hide CannotAfford, OutlayBefore;
  }

  lemma UntradedName(model: FillModel, allowShortCash: bool, mandate: RebalanceMandate, account: Account, market: MarketSnapshot, s: string)
    requires DistinctSymbols(mandate.targets) && SizeOrders(mandate, account, market).Success?
    requires !NamedIn(SizeOrders(mandate, account, market).value.0, s)
    ensures var book := WorkedBook(model, allowShortCash, mandate, account, market);
      && Held(book.positions, s) == Held(account.positions, s)
      && Rejection(s, InsufficientCash) !in book.rejections && !WasFilled(book.fills, s)
  {
    var (orders, refusals) := SizeOrders(mandate, account, market).value;
    hide SizeOrders, WorkAll;
    NoCashRefusals(mandate, account, market, s);
    SizedOrders(mandate, account, market);
    var start := Book(account.positions, account.cash, [], refusals);
    OrdersAnswered(start, orders, market.prices, model, allowShortCash, s);
    PositionsAfter(start, orders, market.prices, model, allowShortCash, s);
  }

  /** A name that is not a target does not move. */
  lemma OthersUnmoved(model: FillModel, allowShortCash: bool, mandate: RebalanceMandate, account: Account, market: MarketSnapshot, s: string)
    requires DistinctSymbols(mandate.targets) && Simulate(model, allowShortCash, mandate, account, market).Success?
    requires (forall t :: t in mandate.targets ==> t.symbol != s) && s in market.prices
    ensures var report := Simulate(model, allowShortCash, mandate, account, market).value;
      Held(Rebuilt(report).positions, s) == Held(account.positions, s) && !WasFilled(report.fills, s)
  {
    hide *;
    ReportedBook(model, allowShortCash, mandate, account, market, s);
    NotATarget(mandate, account, market, s, NoPrice);
    UntradedName(model, allowShortCash, mandate, account, market, s);
  }

  /** Short of its weight by a share or by a trade too small to make, and by more only where a
      purchase was refused for cash. */
  lemma ShortOnlyForCash(model: FillModel, allowShortCash: bool, mandate: RebalanceMandate, account: Account, market: MarketSnapshot, t: TargetWeight)
    requires DistinctSymbols(mandate.targets) && 0.0 <= mandate.minTradeNotional
    requires Simulate(model, allowShortCash, mandate, account, market).Success?
    requires t in mandate.targets && 0.0 <= t.targetWeight && t.symbol in market.prices && 0.0 < market.prices[t.symbol]
    ensures var report, price := Simulate(model, allowShortCash, mandate, account, market).value, market.prices[t.symbol];
      Rejection(t.symbol, InsufficientCash) !in report.rejections ==>
        Worth(Held(Rebuilt(report).positions, t.symbol), price)
        > t.targetWeight * TotalValue(account, market.prices) - price - mandate.minTradeNotional
  {
    hide *;
    var price, value, held := market.prices[t.symbol], TotalValue(account, market.prices), Held(account.positions, t.symbol);
    var n := DesiredShares(t.targetWeight, value, price);
    ReportedBook(model, allowShortCash, mandate, account, market, t.symbol);
    SizedValue(mandate, account, market);
    DesiredExactly(t.targetWeight, value, price);
    DesiredIsNear(t.targetWeight, value, price);
    SimulatedExactly(model, allowShortCash, mandate, account, market, t, n);
    LittleAway(n, held, price, mandate.minTradeNotional);
  }

  lemma DesiredIsNear(weight: real, value: real, price: real)
    requires 0.0 <= weight && 0.0 < value && 0.0 < price
    ensures weight * value - price < Worth(DesiredShares(weight, value, price), price)
  {
    hide DesiredShares;
    DesiredBounds(weight, value, price);
  }

  lemma LittleAway(n: int, held: int, price: real, minNotional: real)
    requires 0.0 < price && 0.0 <= minNotional
    ensures n != held && !Trades(n, held, price, minNotional) ==> Worth(n, price) <= Worth(held, price) + minNotional
  {
    if n != held && !Trades(n, held, price, minNotional) { SmallTrade(held, n, price, minNotional); }
  }

  // ----- the rest of the report

  /** What one snapshot says: a name held and priced, the shares of it, what they are worth,
      and the fraction that is of the account. */
  ghost predicate SnapshotIs(p: PositionSnapshot, positions: Positions, prices: Prices, value: real) {
    && p.symbol in positions && p.symbol in prices && p.quantity == positions[p.symbol]
    && p.marketValue == Worth(p.quantity, prices[p.symbol])
    && (0.0 < value ==> p.weight * value == p.marketValue) && (value <= 0.0 ==> p.weight == 0.0)
  }

  lemma {:induction false} SnapshotsAre(symbols: seq<string>, positions: Positions, prices: Prices, value: real)
    requires forall s :: s in symbols ==> s in positions
    ensures forall p :: p in SnapshotsOf(symbols, positions, prices, value) ==> SnapshotIs(p, positions, prices, value)
  {
    if symbols != [] {
      var front, s := symbols[..|symbols| - 1], symbols[|symbols| - 1];
      assert s in symbols && forall k :: k in front ==> k in symbols;
      SnapshotsAre(front, positions, prices, value);
      if s in prices {
        var worth := positions[s] as real * prices[s];
        if 0.0 < value { assert worth / value * value == worth; }
        assert SnapshotIs(PositionSnapshot(s, positions[s], worth, if value > 0.0 then worth / value else 0.0), positions, prices, value);
      }
      hide SnapshotIs;
    }
  }

  /** The positions reported are those of the account rebuilt from the report, with what each
      is worth and its weight in that account. */
  lemma PositionsReported(mandateId: string, book: Book, startingValue: real, market: MarketSnapshot, p: PositionSnapshot)
    requires p in ReportOf(mandateId, book, startingValue, market).finalPositions
    ensures var account := Rebuilt(ReportOf(mandateId, book, startingValue, market));
      SnapshotIs(p, account.positions, market.prices, TotalValue(account, market.prices))
  {
    hide ShortfallBps, TotalNotional, TotalCommission, MarketValue, SnapshotsOf, Rebuilt, SnapshotIs;
    var positions, report := NonZeroPositions(book.positions), ReportOf(mandateId, book, startingValue, market);
    var value := book.cash + MarketValue(positions, market.prices);
    RebuiltPositions(mandateId, book, startingValue, market);
    SnapshotsAre(SortedKeys(positions.Keys), positions, market.prices, value);
    MarketValueSame(PricedPositions(book.positions, market.prices), positions, market.prices);
    PricedSnapshot(p, book.positions, market.prices, value);
  }

  lemma PricedSnapshot(p: PositionSnapshot, positions: Positions, prices: Prices, value: real)
    requires SnapshotIs(p, NonZeroPositions(positions), prices, value)
    ensures SnapshotIs(p, PricedPositions(positions, prices), prices, value)
  {
  }

  // ----- the turnover reported

  /** What was traded in each name, by the shares it moved. */
  function TradeValue(model: FillModel, before: Positions, after: Positions, prices: Prices): Vector {
    s =>
      var x, y := Held(before, s), Held(after, s);
      if s !in prices || x == y then 0.0
      else Worth(if y > x then y - x else x - y, UnitPrice(model, y > x, prices[s]))
  }

  lemma NotionalOfFill(model: FillModel, o: Order, price: real)
    requires 0 < o.quantity
    ensures FillOrder(model, o, price).Notional() == Worth(o.quantity, UnitPrice(model, o.side == Buy, price))
  {
    UnitPriceIs(model, o.side, price);
    hide CrossedPrice, UnitPrice;
  }

  lemma {:induction false} NotionalTraded(book: Book, orders: seq<Order>, prices: Prices, model: FillModel, allowShortCash: bool, keys: set<string>)
    requires DistinctOrders(orders) && book.fills == []
    requires forall o :: o in orders ==> 0 < o.quantity && o.symbol in prices && o.symbol in keys
    ensures var after := WorkAll(book, orders, prices, model, allowShortCash);
      TotalNotional(after.fills) == Sum(keys, TradeValue(model, book.positions, after.positions, prices))
  {
    hide Work, FillOrder, UnitPrice, Sum, TradeValue, TotalNotional;
    if orders == [] {
      NoWork(book, prices, model, allowShortCash);
      NothingTraded(model, book.positions, prices, keys);
    } else {
      var front, o := orders[..|orders| - 1], orders[|orders| - 1];
      assert o in orders && forall k :: k in front ==> k in orders;
      NotionalTraded(book, front, prices, model, allowShortCash, keys);
      var before := WorkAll(book, front, prices, model, allowShortCash);
      PositionsAfter(book, front, prices, model, allowShortCash, o.symbol);
      NamedInSplit(orders, o.symbol);
      OneMoreTrade(book.positions, before, o, prices, model, allowShortCash, keys);
    }
  }

  lemma NothingTraded(model: FillModel, positions: Positions, prices: Prices, keys: set<string>)
    ensures TotalNotional([]) == 0.0 == Sum(keys, TradeValue(model, positions, positions, prices))
  {
    hide UnitPrice;
    SumZero(keys, TradeValue(model, positions, positions, prices));
  }

  lemma OneMoreTrade(start: Positions, before: Book, o: Order, prices: Prices, model: FillModel, allowShortCash: bool, keys: set<string>)
    requires 0 < o.quantity && o.symbol in prices && o.symbol in keys && Held(before.positions, o.symbol) == Held(start, o.symbol)
    requires TotalNotional(before.fills) == Sum(keys, TradeValue(model, start, before.positions, prices))
    ensures var after := Work(before, o, prices, model, allowShortCash);
      TotalNotional(after.fills) == Sum(keys, TradeValue(model, start, after.positions, prices))
  {
    hide CrossedPrice, UnitPrice, Sum, CannotAfford, Worth;
    var after, f := Work(before, o, prices, model, allowShortCash), FillOrder(model, o, prices[o.symbol]);
    if after.fills != before.fills {
      assert after.fills[..|before.fills|] == before.fills;
      NotionalOfFill(model, o, prices[o.symbol]);
      var x, y := TradeValue(model, start, before.positions, prices), TradeValue(model, start, after.positions, prices);
      SumRemove(keys, o.symbol, x);
      SumRemove(keys, o.symbol, y);
      forall s | s in keys - {o.symbol} ensures x(s) == y(s) {}
      SumEqual(keys - {o.symbol}, x, y);
    }
  }

  /** The turnover reported: half of what changed hands, name by name at the price it did, as
      a fraction of what the account was worth. */
  lemma TurnoverReported(model: FillModel, allowShortCash: bool, mandate: RebalanceMandate, account: Account, market: MarketSnapshot)
    requires DistinctSymbols(mandate.targets) && Simulate(model, allowShortCash, mandate, account, market).Success?
    ensures SizeOrders(mandate, account, market).Success?
    ensures var report, book := Simulate(model, allowShortCash, mandate, account, market).value, WorkedBook(model, allowShortCash, mandate, account, market);
      report.realizedTurnover * TotalValue(account, market.prices) * 2.0
      == Sum(market.prices.Keys, TradeValue(model, account.positions, book.positions, market.prices))
  {
    hide *;
    ReportedBook(model, allowShortCash, mandate, account, market, "");
    SizedValue(mandate, account, market);
    BookIs(model, allowShortCash, mandate, account, market);
    SizedDistinct(mandate, account, market);
    SizedAreUsable(mandate, account, market);
    var (orders, refusals) := SizeOrders(mandate, account, market).value;
    UsableOrdersAre(orders, market.prices);
    NotionalTraded(Book(account.positions, account.cash, [], refusals), orders, market.prices, model, allowShortCash, market.prices.Keys);
    TurnoverOfReport(mandate.mandateId, WorkedBook(model, allowShortCash, mandate, account, market), TotalValue(account, market.prices), market);
  }

  lemma UsableOrdersAre(orders: seq<Order>, prices: Prices)
    requires UsableOrders(orders, prices)
    ensures forall o :: o in orders ==> 0 < o.quantity && o.symbol in prices
  {
  }

  lemma TurnoverOfReport(mandateId: string, book: Book, value: real, market: MarketSnapshot)
    requires 0.0 < value
    ensures ReportOf(mandateId, book, value, market).realizedTurnover * value * 2.0 == TotalNotional(book.fills)
  {
    hide ShortfallBps, TotalNotional, TotalCommission, MarketValue, SnapshotsOf;
    var n := TotalNotional(book.fills);
    assert n / value * value == n;
  }

  // ----- the shortfall reported

  /** The price a fill is measured against: those at the decision if any were given, else
      those of the market. */
  function MeasuredAgainst(market: MarketSnapshot): Prices {
    if market.decisionPrices != map[] then market.decisionPrices else market.prices
  }

  /** How much worse than its reference a fill was, as a fraction of it. */
  function Slip(f: Fill, reference: Prices): real
    requires f.symbol in reference && 0.0 < reference[f.symbol]
  {
    if f.quantity > 0 then f.price / reference[f.symbol] - 1.0 else 1.0 - f.price / reference[f.symbol]
  }

  lemma SlipIs(f: Fill, reference: Prices)
    requires Measurable(f, reference)
    ensures Slippage(f, reference) == Slip(f, reference)
  {
    var d := reference[f.symbol];
    var q := f.price / d;
    assert q * d == f.price;
    Divided(1.0 * (f.price - d), q - 1.0, d);
    Divided(-1.0 * (f.price - d), 1.0 - q, d);
  }

  lemma Divided(x: real, y: real, d: real)
    requires 0.0 < d && x == y * d
    ensures x / d == y
  {
  }

  /** Every measured fill slipped by at least `low` and at most `high`. */
  ghost predicate SlipsWithin(fills: seq<Fill>, reference: Prices, low: real, high: real) {
    forall f :: f in fills && Measurable(f, reference) ==> low <= Slip(f, reference) <= high && 0.0 < f.price
  }

  lemma WeightWithin(x: real, w: real, low: real, high: real)
    requires low <= x <= high && 0.0 <= w
    ensures Times(low, w) <= Times(x, w) <= Times(high, w)
  {
    NonNegative(x - low, w);
    NonNegative(high - x, w);
    assert (x - low) * w == x * w - low * w && (high - x) * w == high * w - x * w;
  }

  lemma {:induction false} WeightedWithin(fills: seq<Fill>, reference: Prices, low: real, high: real)
    requires SlipsWithin(fills, reference, low, high)
    ensures var w := MeasuredNotional(fills, reference);
      0.0 <= w && Times(low, w) <= WeightedSlippage(fills, reference) <= Times(high, w)
  {
    hide Slip, Slippage, Times, Measurable;
    if fills == [] {
      NothingWeighed(reference, low, high);
    } else {
      var front, f := fills[..|fills| - 1], fills[|fills| - 1];
      assert f in fills && forall g :: g in front ==> g in fills;
      WeightedWithin(front, reference, low, high);
      if Measurable(f, reference) {
        SlipIs(f, reference);
        NotionalIsPositive(f);
        WeightWithin(Slippage(f, reference), f.Notional(), low, high);
        MoreWeighed(fills, reference);
        TimesAdds(low, MeasuredNotional(front, reference), f.Notional());
        TimesAdds(high, MeasuredNotional(front, reference), f.Notional());
      }
    }
  }

  lemma MoreWeighed(fills: seq<Fill>, reference: Prices)
    requires fills != [] && Measurable(fills[|fills| - 1], reference)
    ensures var front, f := fills[..|fills| - 1], fills[|fills| - 1];
      && WeightedSlippage(fills, reference) == WeightedSlippage(front, reference) + Times(Slippage(f, reference), f.Notional())
      && MeasuredNotional(fills, reference) == MeasuredNotional(front, reference) + f.Notional()
  {
    hide Slippage, Measurable;
  }

  lemma NothingWeighed(reference: Prices, low: real, high: real)
    ensures MeasuredNotional([], reference) == 0.0 == WeightedSlippage([], reference) && Times(low, 0.0) == 0.0 == Times(high, 0.0)
  {
  }

  lemma NotionalIsPositive(f: Fill)
    requires 0.0 < f.price
    ensures 0.0 <= f.Notional() && (f.quantity != 0 ==> 0.0 < f.Notional())
  {
    var q := (if f.quantity < 0 then -f.quantity else f.quantity) as real;
    NonNegative(q, f.price);
    if f.quantity != 0 { PositiveProduct(q, f.price, q * f.price); }
  }

  lemma TimesAdds(k: real, x: real, y: real)
    ensures Times(k, x + y) == Times(k, x) + Times(k, y)
  {
  }

  /** The shortfall is an average of what the fills slipped, in basis points: between the
      least and the greatest, so exactly that where they all slipped alike; and zero where
      there is nothing to measure. */
  lemma ShortfallIsAnAverage(fills: seq<Fill>, market: MarketSnapshot, low: real, high: real)
    requires SlipsWithin(fills, MeasuredAgainst(market), low, high)
    ensures var bps := ShortfallBps(fills, Reference(market));
      if exists f :: f in fills && f.symbol in MeasuredAgainst(market) && 0.0 < MeasuredAgainst(market)[f.symbol] && f.quantity != 0
      then low * BPS <= bps <= high * BPS else bps == 0.0
  {
    hide Slip, Slippage, WeightedSlippage, MeasuredNotional, Times;
    var reference := MeasuredAgainst(market);
    assert Reference(market) == reference;
    WeightedWithin(fills, reference, low, high);
    MeasuredExactly(fills, reference, low, high);
    var w, x := MeasuredNotional(fills, reference), WeightedSlippage(fills, reference);
    if 0.0 < w { Averaged(x, w, low, high); }
  }

  lemma Averaged(x: real, w: real, low: real, high: real)
    requires 0.0 < w && Times(low, w) <= x <= Times(high, w)
    ensures low * BPS <= x / w * BPS <= high * BPS
  {
    var a := x / w;
    assert a * w == x;
    NoMore(low, a, w);
    NoMore(a, high, w);
  }

  lemma NoMore(a: real, b: real, w: real)
    requires 0.0 < w && a * w <= b * w
    ensures a <= b
  {
    assert (a - b) * w == a * w - b * w;
    if a > b { PositiveProduct(a - b, w, (a - b) * w); }
  }

  lemma {:induction false} MeasuredExactly(fills: seq<Fill>, reference: Prices, low: real, high: real)
    requires SlipsWithin(fills, reference, low, high)
    ensures 0.0 <= MeasuredNotional(fills, reference)
    ensures 0.0 < MeasuredNotional(fills, reference) <==> exists f :: f in fills && Measurable(f, reference)
  {
    hide Slip;
    if fills != [] {
      var front, f := fills[..|fills| - 1], fills[|fills| - 1];
      assert f in fills && forall g :: g in fills <==> g in front || g == f by { assert fills == front + [f]; }
      MeasuredExactly(front, reference, low, high);
      if Measurable(f, reference) {
        NotionalIsPositive(f);
        MoreWeighed(fills, reference);
      }
      hide Fill.Notional;
    }
  }
}
