/** The executor that sends market orders to a broker (src/execution/naive.py). The broker
    is the environment: it may accept an order, refuse it, or accept it and still answer
    with an error. */
module NaiveExecution {
  import opened Options
  import opened Mandates
  import opened Execution

  function ClientOrderId(mandateId: string, symbol: string): string {
    mandateId + "-" + symbol
  }

  /** What the broker does with an order it has not seen. `filled` is what it trades for it,
      by the time it is done; `reported` and `price` are what its reply says, when it
      says. A reply may come before the fill, and say 0. */
  datatype Outcome =
    | Accept(filled: nat, reported: Option<nat>, price: Option<real>)
    | Refuse
    | AcceptThenError(filled: nat)

  /** One order the broker acted on: what it traded, and what its reply makes the executor
      book, None when no reply came. */
  datatype Applied = Applied(key: string, symbol: string, quantity: int, booked: Option<int>)

  /** The executor's memory, and the broker's side of the wire: the ids it has seen, its
      holdings, everything it acted on and every id it was ever sent. */
  datatype World = World(submitted: set<string>, seen: set<string>, holdings: Positions, applied: seq<Applied>, sent: seq<string>)

  function Signed(order: Order, shares: int): int {
    if order.side == Buy then shares else -shares
  }

  /** The quantity taken from a reply: the one it reports, or the whole order. */
  function Booked(order: Order, reported: Option<nat>): int {
    Signed(order, if reported.Some? then reported.value else order.quantity)
  }

  function Act(w: World, applied: Applied): World {
    w.(seen := w.seen + {applied.key},
       holdings := w.holdings[applied.symbol := Held(w.holdings, applied.symbol) + applied.quantity],
       applied := w.applied + [applied])
  }

  function AppliedFor(order: Order, key: string, outcome: Outcome): Applied
    requires !outcome.Refuse?
  {
    Applied(key, order.symbol, Signed(order, outcome.filled),
            if outcome.Accept? then Some(Booked(order, outcome.reported)) else None)
  }

  /** The broker's answer to one submission: its new state, and the response or an error.
      `refusesSeen` says whether it turns away an id it has already accepted. */
  function Submit(w: World, order: Order, key: string, outcome: Outcome, refusesSeen: bool): (World, Option<Outcome>) {
    var heard := w.(sent := w.sent + [key]);
    if (refusesSeen && key in w.seen) || outcome.Refuse? then (heard, None)
    else (Act(heard, AppliedFor(order, key, outcome)), if outcome.Accept? then Some(outcome) else None)
  }

  function FillFrom(order: Order, response: Outcome): Fill
    requires response.Accept?
  {
    Fill(order.symbol, Booked(order, response.reported),
         if response.price.Some? then response.price.value else order.referencePrice, 0.0)
  }

  datatype Session = Session(world: World, book: Book)

  function Refused(s: Session, order: Order, code: RejectionCode): Session {
    s.(book := s.book.(rejections := s.book.rejections + [Rejection(order.symbol, code)]))
  }

  /** One turn of the order loop. */
  function Turn(s: Session, mandateId: string, order: Order, outcome: Outcome, refusesSeen: bool): Session {
    var key := ClientOrderId(mandateId, order.symbol);
    if key in s.world.submitted then Refused(s, order, BelowMinNotional)
    else
      var (world, response) := Submit(s.world, order, key, outcome, refusesSeen);
      match response
      case None => Refused(s.(world := world), order, NoPrice)
      case Some(accepted) =>
        if !accepted.Accept? then s
        else Session(world.(submitted := world.submitted + {key}), Settle(s.book, FillFrom(order, accepted)))
  }

  type Outcomes = nat -> Outcome

  function Turns(s: Session, mandateId: string, orders: seq<Order>, outcomes: Outcomes, refusesSeen: bool): Session {
    if orders == [] then s
    else Turn(Turns(s, mandateId, orders[..|orders| - 1], outcomes, refusesSeen),
              mandateId, orders[|orders| - 1], outcomes(|orders| - 1), refusesSeen)
  }

  /** One call of the executor. */
  function NaiveCall(w: World, mandate: RebalanceMandate, account: Account, market: MarketSnapshot, outcomes: Outcomes)
    : (World, Result<ExecutionReport, ExecutionError>)
  {
    match SizeOrders(mandate, account, market)
    case Failure(e) => (w, Failure(e))
    case Success((orders, rejections)) =>
      var s := Turns(Session(w, Book(account.positions, account.cash, [], rejections)), mandate.mandateId, orders, outcomes, true);
      (s.world, Success(ReportOf(mandate.mandateId, s.book, TotalValue(account, market.prices), market)))
  }

  // ----- the objects

  class Broker {
    var seen: set<string>
    var holdings: Positions
    ghost var applied: seq<Applied>
    ghost var sent: seq<string>

    constructor (holdings: Positions)
      ensures seen == {} && this.holdings == holdings && applied == [] && sent == []
    {
      seen, this.holdings, applied, sent := {}, holdings, [], [];
    }

    ghost function With(submitted: set<string>): World
      reads this
    {
      World(submitted, seen, holdings, applied, sent)
    }

    /** None stands for BrokerError. */
    method SubmitMarketOrder(order: Order, key: string, outcome: Outcome, ghost submitted: set<string>) returns (response: Option<Outcome>)
      modifies this
      ensures (With(submitted), response) == Submit(old(With(submitted)), order, key, outcome, true)
    {
      sent := sent + [key];
      if key in seen || outcome.Refuse? {
        return None;
      }
      var quantity := Signed(order, outcome.filled);
      seen := seen + {key};
      holdings := holdings[order.symbol := Held(holdings, order.symbol) + quantity];
      applied := applied + [AppliedFor(order, key, outcome)];
      response := if outcome.Accept? then Some(outcome) else None;
    }
  }

  class NaiveExecutor {
    const broker: Broker
    /** The ids a reply was had for; none of them goes out twice. */
    var submitted: set<string>

    constructor (broker: Broker)
      ensures this.broker == broker && submitted == {}
    {
      this.broker := broker;
      submitted := {};
    }

    ghost function View(): World
      reads this, broker
    {
      broker.With(submitted)
    }

    method Execute(mandate: RebalanceMandate, account: Account, market: MarketSnapshot, outcomes: Outcomes)
      returns (r: Result<ExecutionReport, ExecutionError>)
      modifies this`submitted, broker
      ensures (View(), r) == NaiveCall(old(View()), mandate, account, market, outcomes)
    {
      hide SizeOrders, ReportOf, TotalValue, Turns;
      var sized := SizeOrdersLoop(mandate, account, market);
      if sized.Failure? {
        return Failure(sized.error);
      }
      var (orders, rejections) := sized.value;
      var positions, cash := account.positions, account.cash;
      var fills: seq<Fill> := [];
      ghost var start := Session(View(), Book(account.positions, account.cash, [], rejections));
      NoTurns(start, mandate.mandateId, outcomes, true);
      assert orders[..0] == [];

      for i := 0 to |orders|
        invariant Session(View(), Book(positions, cash, fills, rejections)) == Turns(start, mandate.mandateId, orders[..i], outcomes, true)
      {
        TurnStep(start, mandate.mandateId, orders, i, outcomes, true);
        var order := orders[i];
        ghost var before := Session(View(), Book(positions, cash, fills, rejections));
        var key := ClientOrderId(mandate.mandateId, order.symbol);
        if key in submitted {
          rejections := rejections + [Rejection(order.symbol, BelowMinNotional)];
        } else {
          var response := broker.SubmitMarketOrder(order, key, outcomes(i), submitted);
          if response.None? {
            rejections := rejections + [Rejection(order.symbol, NoPrice)];
          } else {
            submitted := submitted + {key};
            var fill := FillFrom(order, response.value);
            positions := positions[order.symbol := Held(positions, order.symbol) + fill.quantity];
            cash := cash - fill.Payment() - fill.commission;
            fills := fills + [fill];
          }
        }
        assert Session(View(), Book(positions, cash, fills, rejections)) == Turn(before, mandate.mandateId, order, outcomes(i), true);
      }
      assert orders[..|orders|] == orders;
      r := Success(ReportOf(mandate.mandateId, Book(positions, cash, fills, rejections), TotalValue(account, market.prices), market));
    }
  }

  lemma NoTurns(s: Session, mandateId: string, outcomes: Outcomes, refusesSeen: bool)
    ensures Turns(s, mandateId, [], outcomes, refusesSeen) == s
  {
  }

  lemma TurnStep(s: Session, mandateId: string, orders: seq<Order>, i: nat, outcomes: Outcomes, refusesSeen: bool)
    requires i < |orders|
    ensures Turns(s, mandateId, orders[..i + 1], outcomes, refusesSeen)
            == Turn(Turns(s, mandateId, orders[..i], outcomes, refusesSeen), mandateId, orders[i], outcomes(i), refusesSeen)
  {
    assert orders[..i + 1][..i] == orders[..i];
  }
}

/** At most once, over any sequence of calls and whatever the broker answers. */
module NaiveTheorems {
  import opened Options
  import opened KeyTexts
  import opened Mandates
  import opened Execution
  import opened NaiveExecution

  // ----- ids

  /** One mandate id and a dash begin the other, and the symbols make up the rest. */
  ghost predicate Overlap(m1: string, s1: string, m2: string, s2: string) {
    exists x: string :: m2 == m1 + "-" + x && s1 == x + "-" + s2
  }

  /** Two orders share an id exactly when they are the same mandate and symbol, or a dash
      inside a symbol reads as the end of a longer mandate id. */
  lemma OrderIdsCollideExactly(m1: string, s1: string, m2: string, s2: string)
    ensures ClientOrderId(m1, s1) == ClientOrderId(m2, s2)
            <==> (m1 == m2 && s1 == s2) || Overlap(m1, s1, m2, s2) || Overlap(m2, s2, m1, s1)
  {
    if |m1| == |m2| { SameLengthIds(m1, s1, m2, s2); }
    OverlapExactly(m1, s1, m2, s2);
    OverlapExactly(m2, s2, m1, s1);
    hide Overlap, ClientOrderId;
  }

  /** One such pair: "a" with "b-c", and "a-b" with "c". */
  lemma DashedIdsCollide()
    ensures ClientOrderId("a", "b-c") == ClientOrderId("a-b", "c")
  {
    assert "a" + "-" + "b-c" == "a-b-c" && "a-b" + "-" + "c" == "a-b-c";
  }

  lemma SameLengthIds(m1: string, s1: string, m2: string, s2: string)
    requires |m1| == |m2|
    ensures ClientOrderId(m1, s1) == ClientOrderId(m2, s2) <==> m1 == m2 && s1 == s2
  {
    var a, b, n := ClientOrderId(m1, s1), ClientOrderId(m2, s2), |m1|;
    assert a[..n] == m1 && a[n + 1..] == s1;
    assert b[..n] == m2 && b[n + 1..] == s2;
  }

  lemma IdParts(m: string, s: string)
    ensures var id := ClientOrderId(m, s);
      |m| < |id| && id[..|m|] == m && id[|m|] == '-' && id[|m| + 1..] == s
  {
  }

  lemma OverlapExactly(m1: string, s1: string, m2: string, s2: string)
    ensures Overlap(m1, s1, m2, s2) <==> |m1| < |m2| && ClientOrderId(m1, s1) == ClientOrderId(m2, s2)
  {
    if Overlap(m1, s1, m2, s2) {
      var x :| m2 == m1 + "-" + x && s1 == x + "-" + s2;
      assert m1 + "-" + (x + "-" + s2) == (m1 + "-" + x) + "-" + s2;
    }
    if |m1| < |m2| && ClientOrderId(m1, s1) == ClientOrderId(m2, s2) {
      var id, n, k := ClientOrderId(m1, s1), |m1|, |m2|;
      IdParts(m1, s1);
      IdParts(m2, s2);
      hide ClientOrderId;
      var x := id[n + 1..k];
      assert m2 == id[..n] + [id[n]] + x;
      assert s1 == x + [id[k]] + id[k + 1..];
      assert m2 == m1 + "-" + x && s1 == x + "-" + s2;
    }
  }

  /** Mandate ids built by MandateId all have one length, so their orders share an id only
      when the mandates do. */
  lemma BuiltMandatesKeepOrdersApart(t1: int, v1: real, ws1: seq<TargetWeight>, s1: string,
                                     t2: int, v2: real, ws2: seq<TargetWeight>, s2: string, digest: Digest)
    requires NoCollision(digest, TextOf(t1, v1, ws1, digest), TextOf(t2, v2, ws2, digest))
    requires ReadsBack(digest.iso, t1, t2)
    ensures ClientOrderId(MandateId(t1, v1, ws1, digest), s1) == ClientOrderId(MandateId(t2, v2, ws2, digest), s2)
            <==> TextOf(t1, v1, ws1, digest) == TextOf(t2, v2, ws2, digest) && s1 == s2
    ensures Unambiguous(ws1) && Unambiguous(ws2) ==>
              (ClientOrderId(MandateId(t1, v1, ws1, digest), s1) == ClientOrderId(MandateId(t2, v2, ws2, digest), s2)
               <==> KeyOf(t1, v1, ws1) == KeyOf(t2, v2, ws2) && s1 == s2)
  {
    hide KeyOf, TextOf, MandateId, ClientOrderId, Unambiguous;
    SameIdExactly(t1, v1, ws1, t2, v2, ws2, digest);
    SameIdExactly(t2, v2, ws2, t1, v1, ws1, digest);
    SameLengthIds(MandateId(t1, v1, ws1, digest), s1, MandateId(t2, v2, ws2, digest), s2);
  }

  // ----- the invariant

  ghost predicate KeysDistinct(applied: seq<Applied>) {
    forall i, j :: 0 <= i < j < |applied| ==> applied[i].key != applied[j].key
  }

  ghost predicate IsApplied(applied: seq<Applied>, key: string) {
    exists a :: a in applied && a.key == key
  }

  /** The broker acted at most once on each id and has seen exactly the ids it acted on, and
      the executor recorded exactly those it had a reply for. */
  ghost predicate Consistent(w: World) {
    && KeysDistinct(w.applied)
    && (forall k :: k in w.seen <==> IsApplied(w.applied, k))
    && w.submitted <= w.seen
    && (forall a :: a in w.applied ==> (a.booked.Some? <==> a.key in w.submitted))
  }

  function Quantities(applied: seq<Applied>, s: string): int {
    if applied == [] then 0
    else Quantities(applied[..|applied| - 1], s) + (if applied[|applied| - 1].symbol == s then applied[|applied| - 1].quantity else 0)
  }

  /** What the broker traded under ids the executor never had a reply for ... */
  function Unrecorded(applied: seq<Applied>, s: string): int {
    if applied == [] then 0
    else Unrecorded(applied[..|applied| - 1], s)
         + (var last := applied[|applied| - 1]; if last.symbol == s && last.booked.None? then last.quantity else 0)
  }

  /** ... and by how much it traded more than its replies said. */
  function Misreported(applied: seq<Applied>, s: string): int {
    if applied == [] then 0
    else Misreported(applied[..|applied| - 1], s)
         + (var last := applied[|applied| - 1]; if last.symbol == s && last.booked.Some? then last.quantity - last.booked.value else 0)
  }

  lemma ActConsistent(w: World, a: Applied)
    requires Consistent(w) && a.key !in w.seen
    ensures Consistent(Act(w, a).(submitted := if a.booked.Some? then w.submitted + {a.key} else w.submitted))
  {
    var after := w.applied + [a];
    forall i | 0 <= i < |w.applied| ensures w.applied[i].key != a.key {
      assert w.applied[i] in w.applied;
    }
    forall k ensures IsApplied(after, k) <==> IsApplied(w.applied, k) || k == a.key {
      if IsApplied(w.applied, k) { var b :| b in w.applied && b.key == k; assert b in after; }
      if k == a.key { assert a in after; }
    }
    forall b | b in after ensures b == a || (b in w.applied && b.key != a.key) {}
  }

  /** One turn keeps the invariant, only ever adds to what was recorded, seen and sent, and
      sends nothing already recorded. */
  lemma TurnConsistent(s: Session, mandateId: string, order: Order, outcome: Outcome)
    requires Consistent(s.world)
    ensures var after := Turn(s, mandateId, order, outcome, true).world;
      && Consistent(after)
      && s.world.submitted <= after.submitted && s.world.seen <= after.seen
      && s.world.applied <= after.applied
      && (after.sent == s.world.sent
          || (after.sent == s.world.sent + [ClientOrderId(mandateId, order.symbol)]
              && ClientOrderId(mandateId, order.symbol) !in s.world.submitted))
      && after.submitted - s.world.submitted <= {ClientOrderId(mandateId, order.symbol)} - s.world.seen
  {
    hide Consistent;
    var key := ClientOrderId(mandateId, order.symbol);
    if key !in s.world.submitted && key !in s.world.seen && !outcome.Refuse? {
      var heard := s.world.(sent := s.world.sent + [key]);
      assert Consistent(heard) by { SentIsFree(s.world, key); }
      ActConsistent(heard, AppliedFor(order, key, outcome));
    } else {
      SentIsFree(s.world, key);
    }
  }

  lemma SentIsFree(w: World, key: string)
    requires Consistent(w)
    ensures Consistent(w.(sent := w.sent + [key]))
  {
  }

  // ----- one order, the ledger

  lemma ActLedger(w: World, a: Applied, s: string)
    ensures var after := Act(w, a);
      && Held(after.holdings, s) == Held(w.holdings, s) + (if s == a.symbol then a.quantity else 0)
      && Quantities(after.applied, s) == Quantities(w.applied, s) + (if s == a.symbol then a.quantity else 0)
      && Unrecorded(after.applied, s) == Unrecorded(w.applied, s) + (if s == a.symbol && a.booked.None? then a.quantity else 0)
      && Misreported(after.applied, s)
         == Misreported(w.applied, s) + (if s == a.symbol && a.booked.Some? then a.quantity - a.booked.value else 0)
  {
    var after := Act(w, a);
    assert after.applied[..|w.applied|] == w.applied;
  }

  /** The broker's holdings, less what the executor's own book shows, less what was traded
      without a reply, less what replies left out. */
  ghost function Gap(s: Session, symbol: string): int {
    Held(s.world.holdings, symbol) - Held(s.book.positions, symbol)
    - Unrecorded(s.world.applied, symbol) - Misreported(s.world.applied, symbol)
  }

  /** Every turn moves both sides together, once the unheard and the misreported are set
      apart. */
  lemma TurnLedger(s: Session, mandateId: string, order: Order, outcome: Outcome, symbol: string)
    requires Consistent(s.world)
    ensures var after := Turn(s, mandateId, order, outcome, true);
      && Gap(after, symbol) == Gap(s, symbol)
      && Held(after.world.holdings, symbol) - Quantities(after.world.applied, symbol)
         == Held(s.world.holdings, symbol) - Quantities(s.world.applied, symbol)
  {
    hide Quantities, Unrecorded, Misreported, Consistent;
    var key := ClientOrderId(mandateId, order.symbol);
    if key !in s.world.submitted && key !in s.world.seen && !outcome.Refuse? {
      ActLedger(s.world.(sent := s.world.sent + [key]), AppliedFor(order, key, outcome), symbol);
    }
  }

  // ----- whole calls and whole runs

  ghost predicate NewlySent(before: World, after: World) {
    && |before.sent| <= |after.sent|
    && after.sent[..|before.sent|] == before.sent
    && forall i :: |before.sent| <= i < |after.sent| ==> after.sent[i] !in before.submitted
  }

  /** What any stretch of turns does to the world. */
  ghost predicate Progress(before: World, after: World) {
    && Consistent(after)
    && before.submitted <= after.submitted
    && before.seen <= after.seen
    && before.applied <= after.applied
    && NewlySent(before, after)
    && (forall k :: k in before.seen && k in after.submitted ==> k in before.submitted)
  }

  lemma ProgressTransitive(a: World, b: World, c: World)
    requires Progress(a, b) && Progress(b, c)
    ensures Progress(a, c)
  {
    hide Consistent;
    forall i | |a.sent| <= i < |c.sent| ensures c.sent[i] !in a.submitted {
      if i < |b.sent| { assert c.sent[..|b.sent|][i] == b.sent[i]; }
    }
    assert c.sent[..|a.sent|] == c.sent[..|b.sent|][..|a.sent|];
  }

  lemma TurnProgress(s: Session, mandateId: string, order: Order, outcome: Outcome)
    requires Consistent(s.world)
    ensures Progress(s.world, Turn(s, mandateId, order, outcome, true).world)
  {
    TurnConsistent(s, mandateId, order, outcome);
    hide Consistent, Turn;
  }

  lemma {:induction false} TurnsProgress(s: Session, mandateId: string, orders: seq<Order>, outcomes: Outcomes, symbol: string)
    requires Consistent(s.world)
    ensures var after := Turns(s, mandateId, orders, outcomes, true);
      && Progress(s.world, after.world)
      && Gap(after, symbol) == Gap(s, symbol)
      && Held(after.world.holdings, symbol) - Quantities(after.world.applied, symbol)
         == Held(s.world.holdings, symbol) - Quantities(s.world.applied, symbol)
  {
    hide Consistent, Turn, Gap, NewlySent, Quantities;
    if orders == [] {
      NoProgress(s.world);
    } else {
      var front, last := orders[..|orders| - 1], orders[|orders| - 1];
      var before := Turns(s, mandateId, front, outcomes, true);
      TurnsProgress(s, mandateId, front, outcomes, symbol);
      TurnProgress(before, mandateId, last, outcomes(|orders| - 1));
      TurnLedger(before, mandateId, last, outcomes(|orders| - 1), symbol);
      ProgressTransitive(s.world, before.world, Turn(before, mandateId, last, outcomes(|orders| - 1), true).world);
    }
  }

  lemma NoProgress(w: World)
    requires Consistent(w)
    ensures Progress(w, w)
  {
  }

  datatype Call = Call(mandate: RebalanceMandate, account: Account, market: MarketSnapshot, outcomes: Outcomes)

  function AfterCalls(w: World, calls: seq<Call>): World {
    if calls == [] then w
    else
      var before, call := AfterCalls(w, calls[..|calls| - 1]), calls[|calls| - 1];
      NaiveCall(before, call.mandate, call.account, call.market, call.outcomes).0
  }

  lemma CallProgress(w: World, call: Call, symbol: string)
    requires Consistent(w)
    ensures var after := NaiveCall(w, call.mandate, call.account, call.market, call.outcomes).0;
      && Progress(w, after)
      && Held(after.holdings, symbol) - Quantities(after.applied, symbol) == Held(w.holdings, symbol) - Quantities(w.applied, symbol)
  {
    hide SizeOrders, Consistent, Turns, ReportOf, TotalValue, Progress;
    match SizeOrders(call.mandate, call.account, call.market)
    case Failure(e) => NoProgress(w);
    case Success((orders, rejections)) =>
      TurnsProgress(Session(w, Book(call.account.positions, call.account.cash, [], rejections)), call.mandate.mandateId, orders, call.outcomes, symbol);
  }

  /** At most once: over any sequence of calls and any broker answers, the broker acts on no
      id twice, its holdings are what it started with plus one quantity per id acted on,
      no recorded id is ever sent again, and an order accepted under an error stays
      unrecorded for good, since its retries are refused. */
  lemma {:induction false} AtMostOnce(w: World, calls: seq<Call>, symbol: string)
    requires Consistent(w)
    ensures var after := AfterCalls(w, calls);
      && Progress(w, after) && KeysDistinct(after.applied)
      && Held(after.holdings, symbol) - Quantities(after.applied, symbol) == Held(w.holdings, symbol) - Quantities(w.applied, symbol)
  {
    hide NaiveCall, Progress, Quantities;
    if calls == [] {
      NoProgress(w);
    } else {
      var front, call := calls[..|calls| - 1], calls[|calls| - 1];
      AtMostOnce(w, front, symbol);
      var before := AfterCalls(w, front);
      assert Consistent(before) by { ProgressConsistent(w, before); }
      CallProgress(before, call, symbol);
      ProgressTransitive(w, before, AfterCalls(w, calls));
    }
    ProgressConsistent(w, AfterCalls(w, calls));
  }

  lemma ProgressConsistent(a: World, b: World)
    requires Progress(a, b)
    ensures Consistent(b) && KeysDistinct(b.applied)
  {
  }

  /** From a new broker and executor, in particular: the broker ends with what it began with
      plus one quantity per id acted on, whatever was called and answered. */
  lemma AtMostOnceFromNew(holdings: Positions, calls: seq<Call>, symbol: string)
    ensures var after := AfterCalls(World({}, {}, holdings, [], []), calls);
      && Consistent(after) && KeysDistinct(after.applied)
      && Held(after.holdings, symbol) == Held(holdings, symbol) + Quantities(after.applied, symbol)
  {
    var start := World({}, {}, holdings, [], []);
    assert Quantities(start.applied, symbol) == 0;
    AtMostOnce(start, calls, symbol);
    ProgressConsistent(start, AfterCalls(start, calls));
  }

  /** After one call from the broker's own holdings the broker holds the book's shares, plus
      what was accepted under an error, plus what the replies left out; so the book is
      right about a name exactly when these two come to nothing. */
  lemma BookMissesExactly(w: World, mandateId: string, orders: seq<Order>, outcomes: Outcomes, cash: real, rejections: seq<Rejection>, symbol: string)
    requires Consistent(w)
    ensures var after := Turns(Session(w, Book(w.holdings, cash, [], rejections)), mandateId, orders, outcomes, true);
      var missed := Unrecorded(after.world.applied, symbol) - Unrecorded(w.applied, symbol)
                    + Misreported(after.world.applied, symbol) - Misreported(w.applied, symbol);
      && Held(after.world.holdings, symbol) == Held(after.book.positions, symbol) + missed
      && (Held(after.world.holdings, symbol) == Held(after.book.positions, symbol) <==> missed == 0)
  {
    hide Consistent, Turns, Unrecorded, Misreported;
    TurnsProgress(Session(w, Book(w.holdings, cash, [], rejections)), mandateId, orders, outcomes, symbol);
  }

  /** The reply a market order usually gets, accepted and nothing filled yet: the book shows
      none of the order, nothing was accepted under an error, and the order is never sent
      again. */
  lemma AcceptedUnfilledIsLost(mandateId: string, order: Order, again: Outcome)
    requires order.side == Buy && 0 < order.quantity
    ensures var clean := Session(World({}, {}, map[], [], []), Book(map[], 0.0, [], []));
      var once := Turn(clean, mandateId, order, Accept(order.quantity, Some(0), None), true);
      && Held(once.world.holdings, order.symbol) == order.quantity
      && Held(once.book.positions, order.symbol) == 0
      && Unrecorded(once.world.applied, order.symbol) == 0 && Misreported(once.world.applied, order.symbol) == order.quantity
      && Turn(once, mandateId, order, again, true).world == once.world
  {
    var clean := Session(World({}, {}, map[], [], []), Book(map[], 0.0, [], []));
    var once := Turn(clean, mandateId, order, Accept(order.quantity, Some(0), None), true);
    assert once.world.applied[..0] == [];
  }

  /** The executor's own memory is not enough: against a broker that does not turn away a
      seen id, an order accepted under an error and then retried trades twice. */
  lemma WithoutTheBrokersCheckOrdersDouble(mandateId: string, order: Order)
    requires order.side == Buy && 0 < order.quantity
    ensures var clean := Session(World({}, {}, map[], [], []), Book(map[], 0.0, [], []));
      var once := Turn(clean, mandateId, order, AcceptThenError(order.quantity), false);
      var twice := Turn(once, mandateId, order, Accept(order.quantity, None, None), false);
      && Held(twice.world.holdings, order.symbol) == 2 * order.quantity
      && !KeysDistinct(twice.world.applied)
  {
    var clean := Session(World({}, {}, map[], [], []), Book(map[], 0.0, [], []));
    var once := Turn(clean, mandateId, order, AcceptThenError(order.quantity), false);
    var twice := Turn(once, mandateId, order, Accept(order.quantity, None, None), false);
    assert twice.world.applied[0].key == twice.world.applied[1].key;
  }
}
