/** What one call of the broker executor leaves in its book, order by order, read off the
    broker's answers. */
module NaiveBooks {
  import opened Arithmetic
  import opened Mandates
  import opened Execution
  import opened ExecutionTheorems
  import opened NaiveExecution

  /** The order is answered with a reply: its id was never recorded by the executor nor seen
      by the broker, and the broker accepts it without an error. */
  ghost predicate Heard(w: World, mandateId: string, o: Order, answer: Outcome) {
    ClientOrderId(mandateId, o.symbol) !in w.submitted && ClientOrderId(mandateId, o.symbol) !in w.seen && answer.Accept?
  }

  /** The shares a reply is booked for: those it says, or the whole order; out for a sale. */
  function SharesBooked(o: Order, answer: Outcome): int
    requires answer.Accept?
  {
    var shares := match answer.reported case Some(n) => n case None => o.quantity;
    match o.side case Buy => shares case Sell => -shares
  }

  /** And the price: the one it says, or the one the order was sized at. */
  function PriceBooked(o: Order, answer: Outcome): real
    requires answer.Accept?
  {
    match answer.price case Some(p) => p case None => o.referencePrice
  }

  /** The fills of the orders heard of, in their order. */
  ghost function FillsBooked(w: World, mandateId: string, orders: seq<Order>, answers: Outcomes): seq<Fill> {
    if orders == [] then []
    else
      var n := |orders| - 1;
      FillsBooked(w, mandateId, orders[..n], answers)
      + (if Heard(w, mandateId, orders[n], answers(n))
         then [Fill(orders[n].symbol, SharesBooked(orders[n], answers(n)), PriceBooked(orders[n], answers(n)), 0.0)] else [])
  }

  /** What they cost: shares times price, summed; a sale brings money in. */
  ghost function CostBooked(w: World, mandateId: string, orders: seq<Order>, answers: Outcomes): real {
    if orders == [] then 0.0
    else
      var n := |orders| - 1;
      CostBooked(w, mandateId, orders[..n], answers)
      + (if Heard(w, mandateId, orders[n], answers(n))
         then Times(SharesBooked(orders[n], answers(n)) as real, PriceBooked(orders[n], answers(n))) else 0.0)
  }

  /** The rejections of the others: a duplicate is reported as too small, anything the broker
      errs on as without a price. */
  ghost function Unheard(w: World, mandateId: string, orders: seq<Order>, answers: Outcomes): seq<Rejection> {
    if orders == [] then []
    else
      var n := |orders| - 1;
      Unheard(w, mandateId, orders[..n], answers)
      + (if Heard(w, mandateId, orders[n], answers(n)) then []
         else [Rejection(orders[n].symbol, if ClientOrderId(mandateId, orders[n].symbol) in w.submitted then BelowMinNotional else NoPrice)])
  }

  /** The ids of the orders heard of. */
  ghost function IdsHeard(w: World, mandateId: string, orders: seq<Order>, answers: Outcomes): set<string> {
    if orders == [] then {}
    else
      var n := |orders| - 1;
      IdsHeard(w, mandateId, orders[..n], answers)
      + (if Heard(w, mandateId, orders[n], answers(n)) then {ClientOrderId(mandateId, orders[n].symbol)} else {})
  }

  /** The ids of all of them. */
  ghost function Ids(mandateId: string, orders: seq<Order>): set<string> {
    set o | o in orders :: ClientOrderId(mandateId, o.symbol)
  }

  /** One turn at an order whose id nothing before it in the call has touched. */
  lemma TurnExactly(s: Session, before: World, mandateId: string, o: Order, answer: Outcome)
    requires var key := ClientOrderId(mandateId, o.symbol);
      (key in s.world.submitted <==> key in before.submitted) && (key in s.world.seen <==> key in before.seen)
    ensures var after, key := Turn(s, mandateId, o, answer, true), ClientOrderId(mandateId, o.symbol);
      && s.world.seen <= after.world.seen <= s.world.seen + {key}
      && if Heard(before, mandateId, o, answer)
         then var shares, price := SharesBooked(o, answer), PriceBooked(o, answer);
           && after.book.cash == s.book.cash - Times(shares as real, price)
           && after.book.fills == s.book.fills + [Fill(o.symbol, shares, price, 0.0)]
           && after.book.positions == s.book.positions[o.symbol := Held(s.book.positions, o.symbol) + shares]
           && after.book.rejections == s.book.rejections && after.world.submitted == s.world.submitted + {key}
         else
           && after.book.cash == s.book.cash && after.book.fills == s.book.fills && after.book.positions == s.book.positions
           && after.world.submitted == s.world.submitted
           && after.book.rejections == s.book.rejections + [Rejection(o.symbol, if key in before.submitted then BelowMinNotional else NoPrice)]
  {
    hide ClientOrderId;
  }

  lemma SameIds(mandateId: string, a: string, b: string)
    requires ClientOrderId(mandateId, a) == ClientOrderId(mandateId, b)
    ensures a == b
  {
    assert ClientOrderId(mandateId, a)[|mandateId| + 1..] == a && ClientOrderId(mandateId, b)[|mandateId| + 1..] == b;
  }

  /** The book after a call's orders, exactly: every order heard of leaves one fill at the
      price and for the shares of its reply, and moves that much cash; the others leave a
      rejection each and move none. */
  lemma {:induction false} TurnsExactly(s: Session, mandateId: string, orders: seq<Order>, answers: Outcomes)
    requires DistinctOrders(orders)
    ensures var after := Turns(s, mandateId, orders, answers, true);
      && after.book.fills == s.book.fills + FillsBooked(s.world, mandateId, orders, answers)
      && after.book.cash == s.book.cash - CostBooked(s.world, mandateId, orders, answers)
      && after.book.rejections == s.book.rejections + Unheard(s.world, mandateId, orders, answers)
      && after.world.submitted == s.world.submitted + IdsHeard(s.world, mandateId, orders, answers)
      && after.world.submitted <= s.world.submitted + Ids(mandateId, orders)
      && s.world.seen <= after.world.seen <= s.world.seen + Ids(mandateId, orders)
  {
    hide Turn, Heard, SharesBooked, PriceBooked, Times, ClientOrderId, Ids, DistinctOrders;
    if orders != [] {
      var n := |orders| - 1;
      var front, o := orders[..n], orders[n];
      DistinctFront(orders);
      TurnsExactly(s, mandateId, front, answers);
      var before := Turns(s, mandateId, front, answers, true);
      LastIsNew(mandateId, orders);
      TurnExactly(before, s.world, mandateId, o, answers(n));
    }
  }

  lemma DistinctFront(orders: seq<Order>)
    requires orders != [] && DistinctOrders(orders)
    ensures DistinctOrders(orders[..|orders| - 1])
  {
  }

  lemma LastIsNew(mandateId: string, orders: seq<Order>)
    requires orders != [] && DistinctOrders(orders)
    ensures var n := |orders| - 1; var key := ClientOrderId(mandateId, orders[n].symbol);
      key !in Ids(mandateId, orders[..n]) && Ids(mandateId, orders) == Ids(mandateId, orders[..n]) + {key}
  {
    hide ClientOrderId;
    var n := |orders| - 1;
    var key := ClientOrderId(mandateId, orders[n].symbol);
    assert orders == orders[..n] + [orders[n]];
    if key in Ids(mandateId, orders[..n]) {
      var o :| o in orders[..n] && key == ClientOrderId(mandateId, o.symbol);
      var i :| 0 <= i < n && orders[i] == o;
      SameIds(mandateId, orders[n].symbol, orders[i].symbol);
      assert false;
    }
  }

  /** The shares of one name in a list of fills. */
  function SharesIn(fills: seq<Fill>, s: string): int {
    if fills == [] then 0
    else SharesIn(fills[..|fills| - 1], s) + (if fills[|fills| - 1].symbol == s then fills[|fills| - 1].quantity else 0)
  }

  lemma TurnMoves(s: Session, mandateId: string, o: Order, answer: Outcome, name: string)
    ensures var after := Turn(s, mandateId, o, answer, true);
      Held(after.book.positions, name) - SharesIn(after.book.fills, name) == Held(s.book.positions, name) - SharesIn(s.book.fills, name)
  {
    hide ClientOrderId, Submit;
    var after := Turn(s, mandateId, o, answer, true);
    if after.book.fills != s.book.fills {
      var f := after.book.fills[|after.book.fills| - 1];
      assert after.book.fills == s.book.fills + [f];
      assert (s.book.fills + [f])[..|s.book.fills|] == s.book.fills;
    }
  }

  lemma {:induction false} TurnsMove(s: Session, mandateId: string, orders: seq<Order>, answers: Outcomes, name: string)
    ensures var after := Turns(s, mandateId, orders, answers, true);
      Held(after.book.positions, name) - SharesIn(after.book.fills, name) == Held(s.book.positions, name) - SharesIn(s.book.fills, name)
  {
    hide Turn, SharesIn;
    if orders != [] {
      var n := |orders| - 1;
      TurnsMove(s, mandateId, orders[..n], answers, name);
      TurnMoves(Turns(s, mandateId, orders[..n], answers, true), mandateId, orders[n], answers(n), name);
    }
  }

  /** One whole call, exactly: its fills, its cash and its rejections, and each name moved by
      the shares booked for it. */
  lemma CallExactly(w: World, mandate: RebalanceMandate, account: Account, market: MarketSnapshot, answers: Outcomes, name: string)
    requires DistinctSymbols(mandate.targets) && SizeOrders(mandate, account, market).Success?
    ensures var (orders, refusals) := SizeOrders(mandate, account, market).value;
      var (after, r) := NaiveCall(w, mandate, account, market, answers);
      && r.Success? && r.value.fills == FillsBooked(w, mandate.mandateId, orders, answers)
      && r.value.finalCash == account.cash - CostBooked(w, mandate.mandateId, orders, answers)
      && multiset(r.value.rejections) == multiset(refusals + Unheard(w, mandate.mandateId, orders, answers))
      && (name in market.prices ==>
            Held(Rebuilt(r.value).positions, name) == Held(account.positions, name) + SharesIn(r.value.fills, name))
      && after.submitted == w.submitted + IdsHeard(w, mandate.mandateId, orders, answers)
  {
    var (orders, refusals) := SizeOrders(mandate, account, market).value;
    var start := Session(w, Book(account.positions, account.cash, [], refusals));
    var done := Turns(start, mandate.mandateId, orders, answers, true);
    hide SizeOrders, Turns, TotalValue, FillsBooked, CostBooked, Unheard, IdsHeard, Rebuilt, SharesIn, ReportOf;
    OneOrderEach(mandate, account, market);
    TurnsExactly(start, mandate.mandateId, orders, answers);
    TurnsMove(start, mandate.mandateId, orders, answers, name);
    assert SharesIn([], name) == 0 by { NoShares(name); }
    ReportReads(mandate.mandateId, done.book, TotalValue(account, market.prices), market, name);
    assert [] + FillsBooked(w, mandate.mandateId, orders, answers) == FillsBooked(w, mandate.mandateId, orders, answers);
  }

  lemma NoShares(name: string)
    ensures SharesIn([], name) == 0
  {
  }

  lemma OneOrderEach(mandate: RebalanceMandate, account: Account, market: MarketSnapshot)
    requires DistinctSymbols(mandate.targets) && SizeOrders(mandate, account, market).Success?
    ensures DistinctOrders(SizeOrders(mandate, account, market).value.0)
  {
    hide *;
    SizedOrders(mandate, account, market);
  }

  lemma ReportReads(mandateId: string, book: Book, startingValue: real, market: MarketSnapshot, name: string)
    ensures var report := ReportOf(mandateId, book, startingValue, market);
      && report.fills == book.fills && report.finalCash == book.cash && multiset(report.rejections) == multiset(book.rejections)
      && (name in market.prices ==> Held(Rebuilt(report).positions, name) == Held(book.positions, name))
  {
    hide MarketValue, ShortfallBps, TotalNotional, TotalCommission, SnapshotsOf, Rebuilt;
    RebuiltPositions(mandateId, book, startingValue, market);
    RejectionsReported(mandateId, book, startingValue, market);
  }
}
