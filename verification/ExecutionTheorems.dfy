/** What execution conserves, bounds and reports. */
module ExecutionTheorems {
  import opened Arithmetic
  import opened Ordering
  import opened Mandates
  import opened Execution

  // ----- orders come from targets, one per name

  ghost predicate DistinctOrders(orders: seq<Order>) {
    forall i, j :: 0 <= i < j < |orders| ==> orders[i].symbol != orders[j].symbol
  }

  ghost predicate NamedIn(orders: seq<Order>, s: string) {
    exists i :: 0 <= i < |orders| && orders[i].symbol == s
  }

  lemma {:induction false} OrdersForExact(targets: seq<TargetWeight>, account: Account, prices: Prices, value: real, minNotional: real)
    ensures forall o :: o in OrdersFor(targets, account, prices, value, minNotional)
                        <==> exists t :: t in targets && SizeTarget(t, account, prices, value, minNotional) == Sent(o)
  {
    if targets != [] {
      var front, last := targets[..|targets| - 1], targets[|targets| - 1];
      OrdersForExact(front, account, prices, value, minNotional);
      assert forall t :: t in targets <==> t in front || t == last by { assert targets == front + [last]; }
    }
  }

  lemma {:induction false} OrdersForDistinct(targets: seq<TargetWeight>, account: Account, prices: Prices, value: real, minNotional: real)
    requires DistinctSymbols(targets)
    ensures DistinctOrders(OrdersFor(targets, account, prices, value, minNotional))
  {
    if targets != [] {
      var front, last := targets[..|targets| - 1], targets[|targets| - 1];
      OrdersForDistinct(front, account, prices, value, minNotional);
      OrdersForExact(front, account, prices, value, minNotional);
      var before := OrdersFor(front, account, prices, value, minNotional);
      forall i | 0 <= i < |before| ensures before[i].symbol != last.symbol {
        assert before[i] in before;
        var t :| t in front && SizeTarget(t, account, prices, value, minNotional) == Sent(before[i]);
        assert exists k :: 0 <= k < |front| && front[k] == t;
      }
    }
  }

  lemma {:induction false} InsertDistinct(leq: (Order, Order) -> bool, o: Order, orders: seq<Order>)
    requires DistinctOrders(orders) && !NamedIn(orders, o.symbol)
    ensures DistinctOrders(Sorting.Insert(leq, o, orders))
    ensures forall s :: NamedIn(Sorting.Insert(leq, o, orders), s) <==> s == o.symbol || NamedIn(orders, s)
  {
    var out := Sorting.Insert(leq, o, orders);
    if orders == [] || leq(o, orders[0]) {
      assert out == [o] + orders;
      forall s ensures NamedIn(out, s) <==> s == o.symbol || NamedIn(orders, s) {
        if s == o.symbol { assert out[0].symbol == s; }
        if NamedIn(orders, s) { var i :| 0 <= i < |orders| && orders[i].symbol == s; assert out[i + 1].symbol == s; }
      }
    } else {
      var tail := orders[1..];
      forall i | 0 <= i < |tail| ensures tail[i].symbol != o.symbol { assert tail[i] == orders[i + 1]; }
      InsertDistinct(leq, o, tail);
      var rest := Sorting.Insert(leq, o, tail);
      assert out == [orders[0]] + rest;
      forall i | 0 <= i < |rest| ensures rest[i].symbol != orders[0].symbol {
        assert NamedIn(rest, rest[i].symbol);
      }
      forall s ensures NamedIn(out, s) <==> s == o.symbol || NamedIn(orders, s) {
        if NamedIn(rest, s) { var i :| 0 <= i < |rest| && rest[i].symbol == s; assert out[i + 1].symbol == s; }
        if s == orders[0].symbol { assert out[0].symbol == s; }
        if NamedIn(tail, s) { var i :| 0 <= i < |tail| && tail[i].symbol == s; assert orders[i + 1].symbol == s; }
        if NamedIn(orders, s) && s != orders[0].symbol {
          var i :| 0 <= i < |orders| && orders[i].symbol == s;
          assert tail[i - 1].symbol == s;
        }
      }
    }
  }

  lemma {:induction false} SortDistinct(leq: (Order, Order) -> bool, orders: seq<Order>)
    requires DistinctOrders(orders)
    ensures DistinctOrders(Sorting.Sort(leq, orders))
    ensures forall s :: NamedIn(Sorting.Sort(leq, orders), s) <==> NamedIn(orders, s)
  {
    if orders != [] {
      var tail := orders[1..];
      SortDistinct(leq, tail);
      InsertDistinct(leq, orders[0], Sorting.Sort(leq, tail));
      forall s ensures NamedIn(orders, s) <==> s == orders[0].symbol || NamedIn(tail, s) {
        if NamedIn(tail, s) { var i :| 0 <= i < |tail| && tail[i].symbol == s; assert orders[i + 1].symbol == s; }
        if NamedIn(orders, s) && s != orders[0].symbol {
          var i :| 0 <= i < |orders| && orders[i].symbol == s;
          assert tail[i - 1].symbol == s;
        }
      }
    }
  }

  /** The orders sized for a mandate: one per target that is worth trading, none else, and
      no name twice. */
  lemma SizedOrders(mandate: RebalanceMandate, account: Account, market: MarketSnapshot)
    requires DistinctSymbols(mandate.targets) && SizeOrders(mandate, account, market).Success?
    ensures var orders := SizeOrders(mandate, account, market).value.0;
      && DistinctOrders(orders)
      && forall o :: o in orders <==>
           exists t :: t in mandate.targets &&
             SizeTarget(t, account, market.prices, TotalValue(account, market.prices), mandate.minTradeNotional) == Sent(o)
  {
    hide SizeTarget, TotalValue;
    var value := TotalValue(account, market.prices);
    var raw := OrdersFor(mandate.targets, account, market.prices, value, mandate.minTradeNotional);
    OrdersForDistinct(mandate.targets, account, market.prices, value, mandate.minTradeNotional);
    OrdersForExact(mandate.targets, account, market.prices, value, mandate.minTradeNotional);
    SortDistinct(BySymbol(), raw);
    Sorting.SortMembers(BySymbol(), raw);
  }

  lemma {:induction false} RefusalsForExact(targets: seq<TargetWeight>, account: Account, prices: Prices, value: real, minNotional: real)
    ensures forall r :: r in RefusalsFor(targets, account, prices, value, minNotional)
                        <==> exists t :: t in targets && SizeTarget(t, account, prices, value, minNotional) == Refused(r)
  {
    if targets != [] {
      var front, last := targets[..|targets| - 1], targets[|targets| - 1];
      RefusalsForExact(front, account, prices, value, minNotional);
      assert forall t :: t in targets <==> t in front || t == last by { assert targets == front + [last]; }
    }
  }

  /** The refusals of sizing: exactly the targets without a usable price or below the
      smallest trade, each under its reason. */
  lemma SizedRefusals(mandate: RebalanceMandate, account: Account, market: MarketSnapshot)
    requires SizeOrders(mandate, account, market).Success?
    ensures forall r :: r in SizeOrders(mandate, account, market).value.1 <==>
              exists t :: t in mandate.targets &&
                SizeTarget(t, account, market.prices, TotalValue(account, market.prices), mandate.minTradeNotional) == Refused(r)
  {
    hide SizeTarget, TotalValue;
    var value := TotalValue(account, market.prices);
    RefusalsForExact(mandate.targets, account, market.prices, value, mandate.minTradeNotional);
    Sorting.SortMembers(RejectionBySymbol(), RefusalsFor(mandate.targets, account, market.prices, value, mandate.minTradeNotional));
  }

  // ----- positions after the order loop

  ghost predicate WasFilled(fills: seq<Fill>, s: string) {
    exists f :: f in fills && f.symbol == s
  }

  function SignedFor(orders: seq<Order>, s: string): int {
    if orders == [] then 0
    else if orders[|orders| - 1].symbol == s then orders[|orders| - 1].SignedQuantity()
    else SignedFor(orders[..|orders| - 1], s)
  }

  lemma {:induction false} SignedForOrder(orders: seq<Order>, o: Order)
    requires DistinctOrders(orders) && o in orders
    ensures SignedFor(orders, o.symbol) == o.SignedQuantity()
  {
    var last := |orders| - 1;
    if orders[last] != o {
      assert o in orders[..last];
      var i :| 0 <= i < last && orders[i] == o;
      SignedForOrder(orders[..last], o);
    }
  }

  lemma NamedInSplit(orders: seq<Order>, s: string)
    requires orders != []
    ensures var front, last := orders[..|orders| - 1], orders[|orders| - 1];
      && (NamedIn(orders, s) <==> NamedIn(front, s) || last.symbol == s)
      && (DistinctOrders(orders) && last.symbol == s ==> !NamedIn(front, s))
  {
    var front, last := orders[..|orders| - 1], orders[|orders| - 1];
    assert orders[|orders| - 1].symbol == last.symbol;
    forall i | 0 <= i < |front| ensures front[i].symbol == orders[i].symbol {}
  }

  /** Each name moves by its own order's quantity if that order filled, and not otherwise. */
  lemma {:induction false} PositionsAfter(book: Book, orders: seq<Order>, prices: Prices, model: FillModel, allowShortCash: bool, s: string)
    requires DistinctOrders(orders) && book.fills == []
    ensures var after := WorkAll(book, orders, prices, model, allowShortCash);
      && Held(after.positions, s) == Held(book.positions, s) + (if WasFilled(after.fills, s) then SignedFor(orders, s) else 0)
      && (WasFilled(after.fills, s) ==> NamedIn(orders, s))
  {
    hide CrossedPrice;
    var after := WorkAll(book, orders, prices, model, allowShortCash);
    if orders == [] {
      assert !WasFilled(after.fills, s);
    } else {
      var front, o := orders[..|orders| - 1], orders[|orders| - 1];
      var before := WorkAll(book, front, prices, model, allowShortCash);
      PositionsAfter(book, front, prices, model, allowShortCash, s);
      NamedInSplit(orders, s);
      if after.fills != before.fills {
        var f := after.fills[|after.fills| - 1];
        assert after.fills == before.fills + [f] && f.symbol == o.symbol;
        assert f in after.fills;
        assert WasFilled(after.fills, s) <==> WasFilled(before.fills, s) || o.symbol == s;
      }
    }
  }

  /** Every order is answered once: it fills, or it is refused for want of cash. */
  lemma {:induction false} OrdersAnswered(book: Book, orders: seq<Order>, prices: Prices, model: FillModel, allowShortCash: bool, s: string)
    requires DistinctOrders(orders) && forall o :: o in orders ==> o.symbol in prices
    requires book.fills == [] && Rejection(s, InsufficientCash) !in book.rejections
    ensures var after := WorkAll(book, orders, prices, model, allowShortCash);
      var filled, refused := WasFilled(after.fills, s), Rejection(s, InsufficientCash) in after.rejections;
      (NamedIn(orders, s) <==> filled || refused) && !(filled && refused)
  {
    hide CrossedPrice;
    var after := WorkAll(book, orders, prices, model, allowShortCash);
    if orders == [] {
      assert !WasFilled(after.fills, s);
    } else {
      var front, o := orders[..|orders| - 1], orders[|orders| - 1];
      assert o in orders && forall k :: k in front ==> k in orders;
      var before := WorkAll(book, front, prices, model, allowShortCash);
      OrdersAnswered(book, front, prices, model, allowShortCash, s);
      NamedInSplit(orders, s);
      if after.fills != before.fills {
        var f := after.fills[|after.fills| - 1];
        assert after.fills == before.fills + [f] && f.symbol == o.symbol;
        assert f in after.fills;
        assert WasFilled(after.fills, s) <==> WasFilled(before.fills, s) || o.symbol == s;
      }
    }
  }

  // ----- the account rebuilt from a report

  function SnapshotPositions(snapshots: seq<PositionSnapshot>): Positions {
    if snapshots == [] then map[]
    else SnapshotPositions(snapshots[..|snapshots| - 1])[snapshots[|snapshots| - 1].symbol := snapshots[|snapshots| - 1].quantity]
  }

  /** The account a caller makes of a report. */
  function Rebuilt(report: ExecutionReport): Account {
    Account(report.finalCash, SnapshotPositions(report.finalPositions))
  }

  function PricedPositions(positions: Positions, prices: Prices): Positions {
    map s | s in positions && positions[s] != 0 && s in prices :: positions[s]
  }

  /** The priced positions among the names in `symbols`. */
  function PricedAmong(symbols: seq<string>, positions: Positions, prices: Prices): Positions {
    map s | s in positions && s in symbols && s in prices :: positions[s]
  }

  lemma PricedAmongStep(symbols: seq<string>, positions: Positions, prices: Prices)
    requires symbols != [] && symbols[|symbols| - 1] in positions
    ensures var before, s := PricedAmong(symbols[..|symbols| - 1], positions, prices), symbols[|symbols| - 1];
      PricedAmong(symbols, positions, prices) == if s in prices then before[s := positions[s]] else before
  {
    var front, s := symbols[..|symbols| - 1], symbols[|symbols| - 1];
    assert forall k :: k in symbols <==> k in front || k == s by { assert symbols == front + [s]; }
  }

  lemma SnapshotsStep(symbols: seq<string>, positions: Positions, prices: Prices, value: real)
    requires symbols != [] && forall s :: s in symbols ==> s in positions
    ensures var front, s := symbols[..|symbols| - 1], symbols[|symbols| - 1];
      var before := SnapshotPositions(SnapshotsOf(front, positions, prices, value));
      SnapshotPositions(SnapshotsOf(symbols, positions, prices, value)) == if s in prices then before[s := positions[s]] else before
  {
    var front, s := symbols[..|symbols| - 1], symbols[|symbols| - 1];
    var before, all := SnapshotsOf(front, positions, prices, value), SnapshotsOf(symbols, positions, prices, value);
    if s in prices {
      assert all[..|all| - 1] == before;
    } else {
      assert all == before;
    }
  }

  lemma {:induction false} SnapshotsKeep(symbols: seq<string>, positions: Positions, prices: Prices, value: real)
    requires forall s :: s in symbols ==> s in positions
    ensures SnapshotPositions(SnapshotsOf(symbols, positions, prices, value)) == PricedAmong(symbols, positions, prices)
  {
    if symbols != [] {
      hide SnapshotPositions, SnapshotsOf, PricedAmong;
      assert symbols[|symbols| - 1] in symbols;
      SnapshotsKeep(symbols[..|symbols| - 1], positions, prices, value);
      SnapshotsStep(symbols, positions, prices, value);
      PricedAmongStep(symbols, positions, prices);
    }
  }

  lemma RebuiltPositions(mandateId: string, book: Book, startingValue: real, market: MarketSnapshot)
    ensures var report := ReportOf(mandateId, book, startingValue, market);
      Rebuilt(report) == Account(book.cash, PricedPositions(book.positions, market.prices))
  {
    hide MarketValue, ShortfallBps, TotalNotional, TotalCommission;
    var positions := NonZeroPositions(book.positions);
    SnapshotsKeep(SortedKeys(positions.Keys), positions, market.prices, book.cash + MarketValue(positions, market.prices));
  }

  lemma BySymbolAndCodeOrders()
    ensures Sorting.TotalPreorder(BySymbolAndCode())
  {
    var leq := BySymbolAndCode();
    forall x, y ensures leq(x, y) || leq(y, x) {
      LeqTotal(x.symbol, y.symbol);
      LeqTotal(CodeName(x.code), CodeName(y.code));
    }
    forall x, y, z | leq(x, y) && leq(y, z) ensures leq(x, z) {
      LeqTransitive(x.symbol, y.symbol, z.symbol);
      if x.symbol == z.symbol {
        LeqAntisymmetric(x.symbol, y.symbol);
        LeqTransitive(CodeName(x.code), CodeName(y.code), CodeName(z.code));
      }
    }
  }

  /** A report shows every rejection of the call once, by symbol and then by code. */
  lemma RejectionsReported(mandateId: string, book: Book, startingValue: real, market: MarketSnapshot)
    ensures var report := ReportOf(mandateId, book, startingValue, market);
      Sorting.Sorted(BySymbolAndCode(), report.rejections) && multiset(report.rejections) == multiset(book.rejections)
  {
    hide MarketValue, ShortfallBps, TotalNotional, TotalCommission, SnapshotsOf, BySymbolAndCode;
    BySymbolAndCodeOrders();
    Sorting.SortSorted(BySymbolAndCode(), book.rejections);
    Sorting.SortElements(BySymbolAndCode(), book.rejections);
  }

  // ----- execution does not undo the risk caps

  lemma TruncateBounds(x: real)
    requires 0.0 <= x
    ensures 0 <= Truncate(x) && Truncate(x) as real <= x < Truncate(x) as real + 1.0
  {
  }

  /** Products are passed as parameters to keep each step linear. */
  lemma ShortStep(f: real, d: real, x: real, p: real, fp: real, dp: real, xp: real)
    requires x == f + 1.0 - d && fp == f * p && dp == d * p && xp == x * p
    ensures xp == fp + p - dp
  {
  }

  lemma BelowNext(f: real, x: real, p: real, fp: real, xp: real)
    requires f <= x < f + 1.0 && 0.0 < p && fp == f * p && xp == x * p
    ensures fp <= xp < fp + p
  {
    var d := f + 1.0 - x;
    var dp := d * p;
    PositiveProduct(d, p, dp);
    ShortStep(f, d, x, p, fp, dp, xp);
    NonNegative(x - f, p);
  }

  lemma WholeShares(n: int, x: real, price: real, notional: real)
    requires n as real <= x < n as real + 1.0 && 0.0 < price && x * price == notional
    ensures n as real * price <= notional && notional - price < n as real * price
  {
    BelowNext(n as real, x, price, n as real * price, notional);
  }

  lemma SharesFor(notional: real, price: real)
    requires 0.0 <= notional && 0.0 < price
    ensures var n := Truncate(notional / price);
      0 <= n && n as real * price <= notional && notional - price < n as real * price
  {
    var x := notional / price;
    Quotient(notional, price);
    TruncateBounds(x);
    WholeShares(Truncate(x), x, price, notional);
  }

  lemma DesiredBounds(weight: real, value: real, price: real)
    requires 0.0 <= weight && 0.0 < value && 0.0 < price
    ensures var n := DesiredShares(weight, value, price);
      0 <= n && n as real * price <= weight * value && weight * value - price < n as real * price
  {
    hide Truncate;
    NonNegative(weight, value);
    SharesFor(weight * value, price);
  }

  lemma SmallTrade(desired: int, held: int, price: real, minNotional: real)
    requires AbsInt(desired - held) as real * price < minNotional && 0.0 < price
    ensures held as real * price <= desired as real * price + minNotional
  {
    var gap := AbsInt(desired - held) as real;
    NonNegative(gap - (held - desired) as real, price);
    assert (held - desired) as real * price == held as real * price - desired as real * price;
  }

  /** A position worth at most the minimum trade more than intended; if its order filled,
      worth no more than intended and short of it by less than one share. */
  predicate NearTarget(shares: int, price: real, weight: real, value: real, minNotional: real, filled: bool) {
    var worth, intended := shares as real * price, weight * value;
    worth <= intended + minNotional && (filled ==> intended - price < worth <= intended)
  }

  /** The holding execution can leave in one target: what was desired if its order filled;
      otherwise what was held, which is either desired already, short of it, or over it by
      less than the minimum trade. */
  lemma TargetOutcome(t: TargetWeight, account: Account, prices: Prices, value: real, minNotional: real, filled: bool, after: int)
    requires t.symbol in prices && 0.0 < prices[t.symbol] && 0.0 <= t.targetWeight && 0.0 < value && 0.0 <= minNotional
    requires var sized := SizeTarget(t, account, prices, value, minNotional);
      && (filled ==> sized.Sent? && after == Held(account.positions, t.symbol) + sized.order.SignedQuantity())
      && (!filled ==> after == Held(account.positions, t.symbol) && (sized.Sent? ==> sized.order.side == Buy))
    ensures NearTarget(after, prices[t.symbol], t.targetWeight, value, minNotional, filled)
  {
    var p, held := prices[t.symbol], Held(account.positions, t.symbol);
    var desired := DesiredShares(t.targetWeight, value, p);
    DesiredBounds(t.targetWeight, value, p);
    hide DesiredShares;
    if !filled {
      if held <= desired {
        NonNegative((desired - held) as real, p);
        assert (desired - held) as real * p == desired as real * p - held as real * p;
      } else {
        SmallTrade(desired, held, p, minNotional);
      }
    }
  }

  /** The order for a sell is never turned away. */
  lemma {:induction false} SellsFill(book: Book, orders: seq<Order>, prices: Prices, model: FillModel, allowShortCash: bool, o: Order)
    requires o in orders && o.side == Sell && o.symbol in prices
    ensures WasFilled(WorkAll(book, orders, prices, model, allowShortCash).fills, o.symbol)
  {
    hide CrossedPrice;
    var front, last := orders[..|orders| - 1], orders[|orders| - 1];
    var before, after := WorkAll(book, front, prices, model, allowShortCash), WorkAll(book, orders, prices, model, allowShortCash);
    if last == o {
      var f := FillOrder(model, o, prices[o.symbol]);
      assert after.fills == before.fills + [f];
      assert f in after.fills;
    } else {
      assert o in front by { assert orders == front + [last]; }
      SellsFill(book, front, prices, model, allowShortCash, o);
      var f :| f in before.fills && f.symbol == o.symbol;
      assert f in after.fills;
    }
  }

  /** The executor's book after its order loop. */
  function WorkedBook(model: FillModel, allowShortCash: bool, mandate: RebalanceMandate, account: Account, market: MarketSnapshot): Book
    requires SizeOrders(mandate, account, market).Success?
  {
    var (orders, rejections) := SizeOrders(mandate, account, market).value;
    WorkAll(Book(account.positions, account.cash, [], rejections), orders, market.prices, model, allowShortCash)
  }

  lemma OutcomeOfTarget(model: FillModel, allowShortCash: bool, mandate: RebalanceMandate, account: Account, market: MarketSnapshot, t: TargetWeight)
    requires DistinctSymbols(mandate.targets) && t in mandate.targets
    requires SizeOrders(mandate, account, market).Success?
    ensures var book := WorkedBook(model, allowShortCash, mandate, account, market);
      var sized := SizeTarget(t, account, market.prices, TotalValue(account, market.prices), mandate.minTradeNotional);
      var filled, after := WasFilled(book.fills, t.symbol), Held(book.positions, t.symbol);
      && (filled ==> sized.Sent? && after == Held(account.positions, t.symbol) + sized.order.SignedQuantity())
      && (!filled ==> after == Held(account.positions, t.symbol) && (sized.Sent? ==> sized.order.side == Buy))
  {
    hide SizeTarget, TotalValue, SizeOrders, WorkAll;
    var value := TotalValue(account, market.prices);
    SizedOrders(mandate, account, market);
    var (orders, rejections) := SizeOrders(mandate, account, market).value;
    var start := Book(account.positions, account.cash, [], rejections);
    PositionsAfter(start, orders, market.prices, model, allowShortCash, t.symbol);
    var sized := SizeTarget(t, account, market.prices, value, mandate.minTradeNotional);
    SizedSymbol(t, account, market.prices, value, mandate.minTradeNotional);
    if sized.Sent? {
      SignedForOrder(orders, sized.order);
      if sized.order.side == Sell { SellsFill(start, orders, market.prices, model, allowShortCash, sized.order); }
    } else if NamedIn(orders, t.symbol) {
      OnlyItsOwnTarget(mandate, account, market, t);
    }
  }

  /** Execution does not undo the caps: whatever mix of orders is turned away, every priced
      target ends at most the minimum trade above its weight, and within one share below
      it, never above, when its order filled. */
  lemma ExecutionKeepsCaps(model: FillModel, allowShortCash: bool, mandate: RebalanceMandate, account: Account, market: MarketSnapshot, t: TargetWeight)
    requires DistinctSymbols(mandate.targets) && 0.0 <= mandate.minTradeNotional
    requires Simulate(model, allowShortCash, mandate, account, market).Success?
    requires t in mandate.targets && 0.0 <= t.targetWeight
    requires t.symbol in market.prices && 0.0 < market.prices[t.symbol]
    ensures var report := Simulate(model, allowShortCash, mandate, account, market).value;
      NearTarget(Held(Rebuilt(report).positions, t.symbol), market.prices[t.symbol],
                 t.targetWeight, TotalValue(account, market.prices), mandate.minTradeNotional,
                 WasFilled(report.fills, t.symbol))
  {
    hide *;
    ReportedBook(model, allowShortCash, mandate, account, market, t.symbol);
    var book := WorkedBook(model, allowShortCash, mandate, account, market);
    SizedValue(mandate, account, market);
    OutcomeOfTarget(model, allowShortCash, mandate, account, market, t);
    TargetOutcome(t, account, market.prices, TotalValue(account, market.prices), mandate.minTradeNotional,
                  WasFilled(book.fills, t.symbol), Held(book.positions, t.symbol));
  }

  lemma ReportedBook(model: FillModel, allowShortCash: bool, mandate: RebalanceMandate, account: Account, market: MarketSnapshot, s: string)
    requires Simulate(model, allowShortCash, mandate, account, market).Success?
    ensures SizeOrders(mandate, account, market).Success?
    ensures var report, book := Simulate(model, allowShortCash, mandate, account, market).value, WorkedBook(model, allowShortCash, mandate, account, market);
      && report == ReportOf(mandate.mandateId, book, TotalValue(account, market.prices), market)
      && report.fills == book.fills
      && Rebuilt(report) == Account(book.cash, PricedPositions(book.positions, market.prices))
      && (s in market.prices ==> Held(Rebuilt(report).positions, s) == Held(book.positions, s))
  {
    hide SizeOrders, WorkAll, TotalValue, Rebuilt;
    RebuiltPositions(mandate.mandateId, WorkedBook(model, allowShortCash, mandate, account, market), TotalValue(account, market.prices), market);
  }

  lemma SizedValue(mandate: RebalanceMandate, account: Account, market: MarketSnapshot)
    ensures SizeOrders(mandate, account, market).Success? <==> 0.0 < TotalValue(account, market.prices)
  {
    hide TotalValue;
  }

  lemma SizedSymbol(t: TargetWeight, account: Account, prices: Prices, value: real, minNotional: real)
    ensures var sized := SizeTarget(t, account, prices, value, minNotional);
      sized.Sent? ==> sized.order.symbol == t.symbol && t.symbol in prices && 0.0 < prices[t.symbol] && sized.order.quantity > 0
  {
  }

  lemma OnlyItsOwnTarget(mandate: RebalanceMandate, account: Account, market: MarketSnapshot, t: TargetWeight)
    requires DistinctSymbols(mandate.targets) && t in mandate.targets
    requires SizeOrders(mandate, account, market).Success? && NamedIn(SizeOrders(mandate, account, market).value.0, t.symbol)
    ensures SizeTarget(t, account, market.prices, TotalValue(account, market.prices), mandate.minTradeNotional).Sent?
  {
    hide SizeTarget, TotalValue, SizeOrders;
    var value := TotalValue(account, market.prices);
    SizedOrders(mandate, account, market);
    var orders := SizeOrders(mandate, account, market).value.0;
    var i :| 0 <= i < |orders| && orders[i].symbol == t.symbol;
    assert orders[i] in orders;
    var u :| u in mandate.targets && SizeTarget(u, account, market.prices, value, mandate.minTradeNotional) == Sent(orders[i]);
    SizedSymbol(u, account, market.prices, value, mandate.minTradeNotional);
    var a :| 0 <= a < |mandate.targets| && mandate.targets[a] == t;
    var b :| 0 <= b < |mandate.targets| && mandate.targets[b] == u;
  }
}
