/** What turns a mandate into trades: sizing, fills, the simulated executor and its report
    (src/execution/base.py, fill_models.py, simulated.py). */
module Execution {
  import opened Options
  import opened Ordering
  import opened Sums
  import Sorting
  import opened RiskEngine
  import opened Mandates

  datatype Side = Buy | Sell

  datatype Order = Order(symbol: string, side: Side, quantity: int, referencePrice: real) {
    function SignedQuantity(): int {
      if side == Buy then quantity else -quantity
    }
  }

  datatype Fill = Fill(symbol: string, quantity: int, price: real, commission: real) {
    function Notional(): real {
      (if quantity < 0 then -quantity else quantity) as real * price
    }

    /** What the account pays for the shares; negative for a sale. */
    function Payment(): real {
      quantity as real * price
    }
  }

  datatype RejectionCode = BelowMinNotional | NoPrice | InsufficientCash | TurnoverExceeded | NotShortable
  datatype Rejection = Rejection(symbol: string, code: RejectionCode)

  type Positions = map<string, int>
  type Prices = map<string, real>

  /** What is owned: money, and a number of shares of each name. */
  datatype Account = Account(cash: real, positions: Positions)

  datatype MarketSnapshot = MarketSnapshot(timestamp: int, prices: Prices, decisionPrices: Prices)

  datatype PositionSnapshot = PositionSnapshot(symbol: string, quantity: int, marketValue: real, weight: real)

  datatype ExecutionReport = ExecutionReport(
    mandateId: string,
    finalPositions: seq<PositionSnapshot>,
    realizedTurnover: real,
    implementationShortfallBps: real,
    totalCommission: real,
    rejections: seq<Rejection>,
    fills: seq<Fill>,
    finalCash: real)

  datatype ExecutionError = ExecutionError

  // ----- valuation

  function Held(positions: Positions, s: string): int {
    if s in positions then positions[s] else 0
  }

  function ValueOf(positions: Positions, prices: Prices): Vector {
    s => if s in prices then Held(positions, s) as real * prices[s] else 0.0
  }

  function MarketValue(positions: Positions, prices: Prices): real {
    Sum(positions.Keys, ValueOf(positions, prices))
  }

  function TotalValue(account: Account, prices: Prices): real {
    account.cash + MarketValue(account.positions, prices)
  }

  // ----- sizing

  /** Rounding toward zero. */
  function Truncate(x: real): int {
    if x < 0.0 then -((-x).Floor) else x.Floor
  }

  function AbsInt(n: int): int {
    if n < 0 then -n else n
  }

  datatype Sized = NoTrade | Sent(order: Order) | Refused(rejection: Rejection)

  function DesiredShares(weight: real, value: real, price: real): int
    requires price > 0.0
  {
    Truncate(weight * value / price)
  }

  function SizeTarget(t: TargetWeight, account: Account, prices: Prices, value: real, minNotional: real): Sized {
    if t.symbol !in prices || prices[t.symbol] <= 0.0 then Refused(Rejection(t.symbol, NoPrice))
    else
      var price := prices[t.symbol];
      var delta := DesiredShares(t.targetWeight, value, price) - Held(account.positions, t.symbol);
      if delta == 0 then NoTrade
      else if AbsInt(delta) as real * price < minNotional then Refused(Rejection(t.symbol, BelowMinNotional))
      else Sent(Order(t.symbol, if delta > 0 then Buy else Sell, AbsInt(delta), price))
  }

  function OrdersFor(targets: seq<TargetWeight>, account: Account, prices: Prices, value: real, minNotional: real): seq<Order> {
    if targets == [] then []
    else OrdersFor(targets[..|targets| - 1], account, prices, value, minNotional)
         + (var sized := SizeTarget(targets[|targets| - 1], account, prices, value, minNotional);
            if sized.Sent? then [sized.order] else [])
  }

  function RefusalsFor(targets: seq<TargetWeight>, account: Account, prices: Prices, value: real, minNotional: real): seq<Rejection> {
    if targets == [] then []
    else RefusalsFor(targets[..|targets| - 1], account, prices, value, minNotional)
         + (var sized := SizeTarget(targets[|targets| - 1], account, prices, value, minNotional);
            if sized.Refused? then [sized.rejection] else [])
  }

  function BySymbol(): (Order, Order) -> bool {
    (a: Order, b: Order) => Leq(a.symbol, b.symbol)
  }

  function RejectionBySymbol(): (Rejection, Rejection) -> bool {
    (a: Rejection, b: Rejection) => Leq(a.symbol, b.symbol)
  }

  /** The orders and refusals a mandate comes to, each by symbol. */
  function SizeOrders(mandate: RebalanceMandate, account: Account, market: MarketSnapshot)
    : Result<(seq<Order>, seq<Rejection>), ExecutionError>
  {
    var value := TotalValue(account, market.prices);
    if value <= 0.0 then Failure(ExecutionError)
    else Success((Sorting.Sort(BySymbol(), OrdersFor(mandate.targets, account, market.prices, value, mandate.minTradeNotional)),
                  Sorting.Sort(RejectionBySymbol(), RefusalsFor(mandate.targets, account, market.prices, value, mandate.minTradeNotional))))
  }

  method SizeOrdersLoop(mandate: RebalanceMandate, account: Account, market: MarketSnapshot)
    returns (r: Result<(seq<Order>, seq<Rejection>), ExecutionError>)
    ensures r == SizeOrders(mandate, account, market)
  {
    hide Sum;
    var orders: seq<Order>, rejections: seq<Rejection> := [], [];
    var value := TotalValue(account, market.prices);
    if value <= 0.0 {
      return Failure(ExecutionError);
    }
    var targets := mandate.targets;
    for i := 0 to |targets|
      invariant orders == OrdersFor(targets[..i], account, market.prices, value, mandate.minTradeNotional)
      invariant rejections == RefusalsFor(targets[..i], account, market.prices, value, mandate.minTradeNotional)
    {
      assert targets[..i + 1][..i] == targets[..i];
      var sized := SizeTarget(targets[i], account, market.prices, value, mandate.minTradeNotional);
      match sized {
        case NoTrade =>
        case Sent(order) => orders := orders + [order];
        case Refused(rejection) => rejections := rejections + [rejection];
      }
    }
    assert targets[..|targets|] == targets;
    r := Success((Sorting.Sort(BySymbol(), orders), Sorting.Sort(RejectionBySymbol(), rejections)));
  }

  // ----- fill models

  datatype FillModel =
    | Instant
    | SpreadCross(spreadBps: real, commissionPerShare: real)

  const BPS := 10000.0

  function CrossedPrice(model: FillModel, side: Side, price: real): real {
    match model
    case Instant => price
    case SpreadCross(spread, _) =>
      var half := price * (spread / BPS) / 2.0;
      var crossed := if side == Buy then price + half else price - half;
      if crossed <= 0.0 then price else crossed
  }

  function FillOrder(model: FillModel, order: Order, price: real): Fill {
    Fill(order.symbol, order.SignedQuantity(), CrossedPrice(model, order.side, price),
         if model.Instant? then 0.0 else model.commissionPerShare * order.quantity as real)
  }

  // ----- the order loop

  datatype Book = Book(positions: Positions, cash: real, fills: seq<Fill>, rejections: seq<Rejection>)

  predicate CannotAfford(fill: Fill, order: Order, cash: real, allowShortCash: bool) {
    order.side == Buy && !allowShortCash && fill.Notional() + fill.commission > cash
  }

  function Settle(book: Book, fill: Fill): Book {
    book.(positions := book.positions[fill.symbol := Held(book.positions, fill.symbol) + fill.quantity],
          cash := book.cash - fill.Payment() - fill.commission,
          fills := book.fills + [fill])
  }

  function Work(book: Book, order: Order, prices: Prices, model: FillModel, allowShortCash: bool): Book {
    if order.symbol !in prices then book
    else
      var fill := FillOrder(model, order, prices[order.symbol]);
      if CannotAfford(fill, order, book.cash, allowShortCash)
      then book.(rejections := book.rejections + [Rejection(order.symbol, InsufficientCash)])
      else Settle(book, fill)
  }

  function WorkAll(book: Book, orders: seq<Order>, prices: Prices, model: FillModel, allowShortCash: bool): Book {
    if orders == [] then book
    else Work(WorkAll(book, orders[..|orders| - 1], prices, model, allowShortCash), orders[|orders| - 1], prices, model, allowShortCash)
  }

  lemma NoWork(book: Book, prices: Prices, model: FillModel, allowShortCash: bool)
    ensures WorkAll(book, [], prices, model, allowShortCash) == book
  {
  }

  lemma WorkStep(book: Book, orders: seq<Order>, i: nat, prices: Prices, model: FillModel, allowShortCash: bool)
    requires i < |orders|
    ensures WorkAll(book, orders[..i + 1], prices, model, allowShortCash)
            == Work(WorkAll(book, orders[..i], prices, model, allowShortCash), orders[i], prices, model, allowShortCash)
  {
    assert orders[..i + 1][..i] == orders[..i];
  }

  // ----- the report

  function NonZeroPositions(positions: Positions): Positions {
    map s | s in positions && positions[s] != 0 :: positions[s]
  }

  function SnapshotsOf(symbols: seq<string>, positions: Positions, prices: Prices, value: real): seq<PositionSnapshot>
    requires forall s :: s in symbols ==> s in positions
  {
    if symbols == [] then []
    else
      var s := symbols[|symbols| - 1];
      SnapshotsOf(symbols[..|symbols| - 1], positions, prices, value)
      + (if s in prices
         then [PositionSnapshot(s, positions[s], positions[s] as real * prices[s],
                                if value > 0.0 then positions[s] as real * prices[s] / value else 0.0)]
         else [])
  }

  function CodeName(code: RejectionCode): string {
    match code
    case BelowMinNotional => "BELOW_MIN_NOTIONAL"
    case NoPrice => "NO_PRICE"
    case InsufficientCash => "INSUFFICIENT_CASH"
    case TurnoverExceeded => "TURNOVER_EXCEEDED"
    case NotShortable => "NOT_SHORTABLE"
  }

  function BySymbolAndCode(): (Rejection, Rejection) -> bool {
    (a: Rejection, b: Rejection) => Leq(a.symbol, b.symbol) && (a.symbol == b.symbol ==> Leq(CodeName(a.code), CodeName(b.code)))
  }

  /** The weights a report says were reached. */
  function RealizedWeights(snapshots: seq<PositionSnapshot>): Weights {
    if snapshots == [] then map[]
    else RealizedWeights(snapshots[..|snapshots| - 1])[snapshots[|snapshots| - 1].symbol := snapshots[|snapshots| - 1].weight]
  }

  /** Their names, in the order reported. */
  function SnapshotSymbols(snapshots: seq<PositionSnapshot>): seq<string> {
    if snapshots == [] then [] else SnapshotSymbols(snapshots[..|snapshots| - 1]) + [snapshots[|snapshots| - 1].symbol]
  }

  function TotalNotional(fills: seq<Fill>): real {
    if fills == [] then 0.0 else TotalNotional(fills[..|fills| - 1]) + fills[|fills| - 1].Notional()
  }

  function TotalCommission(fills: seq<Fill>): real {
    if fills == [] then 0.0 else TotalCommission(fills[..|fills| - 1]) + fills[|fills| - 1].commission
  }

  predicate Measurable(fill: Fill, reference: Prices) {
    fill.symbol in reference && reference[fill.symbol] > 0.0 && fill.quantity != 0
  }

  /** The signed cost of one fill relative to its decision price. */
  function Slippage(fill: Fill, reference: Prices): real
    requires Measurable(fill, reference)
  {
    (if fill.quantity > 0 then 1.0 else -1.0) * (fill.price - reference[fill.symbol]) / reference[fill.symbol]
  }

  function WeightedSlippage(fills: seq<Fill>, reference: Prices): real {
    if fills == [] then 0.0
    else
      var fill := fills[|fills| - 1];
      WeightedSlippage(fills[..|fills| - 1], reference)
      + (if Measurable(fill, reference) then Slippage(fill, reference) * fill.Notional() else 0.0)
  }

  function MeasuredNotional(fills: seq<Fill>, reference: Prices): real {
    if fills == [] then 0.0
    else MeasuredNotional(fills[..|fills| - 1], reference)
         + (if Measurable(fills[|fills| - 1], reference) then fills[|fills| - 1].Notional() else 0.0)
  }

  /** The average slippage, weighted by what was traded, in basis points. */
  function ShortfallBps(fills: seq<Fill>, reference: Prices): real {
    if MeasuredNotional(fills, reference) <= 0.0 then 0.0
    else WeightedSlippage(fills, reference) / MeasuredNotional(fills, reference) * BPS
  }

  method MeasureShortfall(fills: seq<Fill>, reference: Prices) returns (bps: real)
    ensures bps == ShortfallBps(fills, reference)
  {
    var totalNotional, weighted := 0.0, 0.0;
    for i := 0 to |fills|
      invariant totalNotional == MeasuredNotional(fills[..i], reference)
      invariant weighted == WeightedSlippage(fills[..i], reference)
    {
      assert fills[..i + 1][..i] == fills[..i];
      var fill := fills[i];
      if fill.symbol in reference && reference[fill.symbol] > 0.0 && fill.quantity != 0 {
        var notional := fill.Notional();
        weighted := weighted + Slippage(fill, reference) * notional;
        totalNotional := totalNotional + notional;
      }
    }
    assert fills[..|fills|] == fills;
    bps := if totalNotional <= 0.0 then 0.0 else weighted / totalNotional * BPS;
  }

  function Reference(market: MarketSnapshot): Prices {
    if market.decisionPrices == map[] then market.prices else market.decisionPrices
  }

  function ReportOf(mandateId: string, book: Book, startingValue: real, market: MarketSnapshot): ExecutionReport {
    var positions := NonZeroPositions(book.positions);
    var endingValue := book.cash + MarketValue(positions, market.prices);
    ExecutionReport(mandateId,
                    SnapshotsOf(SortedKeys(positions.Keys), positions, market.prices, endingValue),
                    if startingValue > 0.0 then TotalNotional(book.fills) / startingValue / 2.0 else 0.0,
                    ShortfallBps(book.fills, Reference(market)),
                    TotalCommission(book.fills), Sorting.Sort(BySymbolAndCode(), book.rejections), book.fills, book.cash)
  }

  /** One whole call of the simulated executor. */
  function Simulate(model: FillModel, allowShortCash: bool, mandate: RebalanceMandate, account: Account, market: MarketSnapshot)
    : Result<ExecutionReport, ExecutionError>
  {
    match SizeOrders(mandate, account, market)
    case Failure(e) => Failure(e)
    case Success((orders, rejections)) =>
      var book := WorkAll(Book(account.positions, account.cash, [], rejections), orders, market.prices, model, allowShortCash);
      Success(ReportOf(mandate.mandateId, book, TotalValue(account, market.prices), market))
  }

  /** The generator loop of the executor, draining to its report. */
  method Execute(model: FillModel, allowShortCash: bool, mandate: RebalanceMandate, account: Account, market: MarketSnapshot)
    returns (r: Result<ExecutionReport, ExecutionError>)
    ensures r == Simulate(model, allowShortCash, mandate, account, market)
  {
    hide Sum, SizeOrders, ReportOf, TotalValue, CrossedPrice, WorkAll;
    var sized := SizeOrdersLoop(mandate, account, market);
    if sized.Failure? {
      return Failure(sized.error);
    }
    var (orders, rejections) := sized.value;
    var startingValue := TotalValue(account, market.prices);
    var positions, cash := account.positions, account.cash;
    var fills: seq<Fill> := [];
    ghost var start := Book(account.positions, account.cash, [], rejections);
    assert WorkAll(start, orders[..0], market.prices, model, allowShortCash) == start by {
      assert WorkAll(start, [], market.prices, model, allowShortCash) == start by { NoWork(start, market.prices, model, allowShortCash); }
      assert orders[..0] == [];
    }

    for i := 0 to |orders|
      invariant Book(positions, cash, fills, rejections) == WorkAll(start, orders[..i], market.prices, model, allowShortCash)
    {
      WorkStep(start, orders, i, market.prices, model, allowShortCash);
      ghost var before := Book(positions, cash, fills, rejections);
      var order := orders[i];
      if order.symbol in market.prices {
        var fill := FillOrder(model, order, market.prices[order.symbol]);
        if order.side == Buy && !allowShortCash && fill.Notional() + fill.commission > cash {
          rejections := rejections + [Rejection(order.symbol, InsufficientCash)];
        } else {
          positions := positions[order.symbol := Held(positions, order.symbol) + fill.quantity];
          cash := cash - fill.Payment();
          cash := cash - fill.commission;
          fills := fills + [fill];
          assert Book(positions, cash, fills, rejections) == Settle(before, fill);
        }
      }
      assert Book(positions, cash, fills, rejections) == Work(before, order, market.prices, model, allowShortCash);
    }
    assert orders[..|orders|] == orders;
    r := Success(ReportOf(mandate.mandateId, Book(positions, cash, fills, rejections), startingValue, market));
  }
}
