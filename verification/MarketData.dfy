/** Simulated time (src/time/clock.py) and the event source (src/data/sources.py). */
module Clocks {

  /** Backtest time: moved only by the engine, and only forwards. */
  class SimulationClock {
    var now: int

    constructor (start: int)
      ensures now == start
    {
      now := start;
    }

    /** False stands for ClockError. */
    method AdvanceTo(ts: int) returns (ok: bool)
      modifies this
      ensures ok <==> old(now) <= ts
      ensures now == if ok then ts else old(now)
    {
      ok := now <= ts;
      if ok { now := ts; }
    }
  }
}

module MarketData {
  import opened Options
  import opened Ordering
  import opened Sorting

  /** A bar's unadjusted close, and its adjusted close when it has one; anything else. */
  datatype Payload = Bar(close: real, adjClose: Option<real>) | NotABar

  datatype MarketEvent = MarketEvent(timestamp: int, symbol: string, payload: Payload)

  datatype SourceError = SourceError

  function ByTimeAndSymbol(): (MarketEvent, MarketEvent) -> bool {
    (a: MarketEvent, b: MarketEvent) => a.timestamp < b.timestamp || (a.timestamp == b.timestamp && Leq(a.symbol, b.symbol))
  }

  lemma ByTimeAndSymbolOrders()
    ensures TotalPreorder(ByTimeAndSymbol())
  {
    var leq := ByTimeAndSymbol();
    forall x, y ensures leq(x, y) || leq(y, x) { LeqTotal(x.symbol, y.symbol); }
    forall x, y, z | leq(x, y) && leq(y, z) ensures leq(x, z) {
      if x.timestamp == y.timestamp == z.timestamp { LeqTransitive(x.symbol, y.symbol, z.symbol); }
    }
  }

  /** A source holds its events in order, however they came. */
  function FromEvents(events: seq<MarketEvent>): seq<MarketEvent> {
    Sort(ByTimeAndSymbol(), events)
  }

  function InWindow(start: int, end: int): MarketEvent -> bool {
    (e: MarketEvent) => start <= e.timestamp <= end
  }

  function Stream(source: seq<MarketEvent>, start: int, end: int): Result<seq<MarketEvent>, SourceError> {
    if end < start then Failure(SourceError) else Success(Filter(InWindow(start, end), source))
  }

  ghost predicate TimeOrdered(events: seq<MarketEvent>) {
    forall i, j :: 0 <= i < j < |events| ==> events[i].timestamp <= events[j].timestamp
  }

  /** Events that neither comes before in the order of a source. */
  function Tied(e: MarketEvent): MarketEvent -> bool {
    (x: MarketEvent) => x.timestamp == e.timestamp && x.symbol == e.symbol
  }

  /** The stream of a source is in time order and is exactly the events of the window, each
      as often as it was given, and those of one symbol at one instant in the order they
      were given. */
  lemma StreamOrdered(events: seq<MarketEvent>, start: int, end: int)
    requires start <= end
    ensures var stream := Stream(FromEvents(events), start, end).value;
      && TimeOrdered(stream)
      && (forall e :: e in stream <==> e in events && start <= e.timestamp <= end)
      && multiset(stream) == multiset(Filter(InWindow(start, end), events))
      && forall e :: Filter(Tied(e), stream) == Filter(Tied(e), Filter(InWindow(start, end), events))
  {
    ByTimeAndSymbolOrders();
    SortSorted(ByTimeAndSymbol(), events);
    SortMembers(ByTimeAndSymbol(), events);
    FilterSorted(ByTimeAndSymbol(), InWindow(start, end), FromEvents(events));
    FilterMembers(InWindow(start, end), FromEvents(events));
    var inside := Filter(InWindow(start, end), events);
    FilterSort(ByTimeAndSymbol(), InWindow(start, end), events);
    SortElements(ByTimeAndSymbol(), inside);
    forall e ensures Filter(Tied(e), Sort(ByTimeAndSymbol(), inside)) == Filter(Tied(e), inside) { TiesKept(inside, e); }
  }

  lemma TiesKept(events: seq<MarketEvent>, e: MarketEvent)
    ensures Filter(Tied(e), Sort(ByTimeAndSymbol(), events)) == Filter(Tied(e), events)
  {
    var tied := Filter(Tied(e), events);
    ByTimeAndSymbolOrders();
    FilterSort(ByTimeAndSymbol(), Tied(e), events);
    FilterMembers(Tied(e), events);
    LeqTotal(e.symbol, e.symbol);
    forall i, j | 0 <= i < j < |tied| ensures ByTimeAndSymbol()(tied[i], tied[j]) { assert tied[i] in tied && tied[j] in tied; }
    SortOfSorted(ByTimeAndSymbol(), tied);
  }

  /** What the future holds does not reach back: two lists of events that agree up to
      `end`, ties and repetitions included, give the same stream up to `end`. */
  lemma StreamIgnoresTheFuture(xs: seq<MarketEvent>, ys: seq<MarketEvent>, start: int, end: int)
    requires start <= end
    requires Filter(InWindow(start, end), xs) == Filter(InWindow(start, end), ys)
    ensures Stream(FromEvents(xs), start, end) == Stream(FromEvents(ys), start, end)
  {
    ByTimeAndSymbolOrders();
    FilterSort(ByTimeAndSymbol(), InWindow(start, end), xs);
    FilterSort(ByTimeAndSymbol(), InWindow(start, end), ys);
  }

  lemma {:induction false} OrderedPrefix(source: seq<MarketEvent>, start: int, mid: int, end: int)
    requires TimeOrdered(source) && mid <= end
    ensures var short, long := Filter(InWindow(start, mid), source), Filter(InWindow(start, end), source);
      && short <= long
      && (forall i :: |short| <= i < |long| ==> mid < long[i].timestamp)
      && (forall i :: 0 <= i < |short| ==> short[i].timestamp <= mid)
  {
    if source != [] {
      var e, rest := source[0], source[1..];
      OrderedPrefix(rest, start, mid, end);
      var short, long := Filter(InWindow(start, mid), rest), Filter(InWindow(start, end), rest);
      if mid < e.timestamp {
        forall i | 0 <= i < |rest| ensures mid < rest[i].timestamp { assert rest[i] == source[i + 1]; }
        FilterNone(InWindow(start, mid), rest);
      }
    }
  }

  /** A window that ends earlier sees a prefix of what a longer one sees, cut at a
      timestamp. */
  lemma ShorterWindowIsPrefix(events: seq<MarketEvent>, start: int, mid: int, end: int)
    requires start <= mid <= end
    ensures var short, long := Stream(FromEvents(events), start, mid).value, Stream(FromEvents(events), start, end).value;
      && short <= long
      && (forall i :: |short| <= i < |long| ==> mid < long[i].timestamp)
      && (forall i :: 0 <= i < |short| ==> short[i].timestamp <= mid)
  {
    ByTimeAndSymbolOrders();
    SortSorted(ByTimeAndSymbol(), events);
    OrderedPrefix(FromEvents(events), start, mid, end);
  }
}
