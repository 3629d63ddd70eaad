/** The rebalance mandate (src/decision/mandate.py): what the decision side hands over. */
module Mandates {
  import opened Arithmetic
  import opened Options
  import opened Ordering
  import Sorting
  import opened Sums
  import opened RiskEngine
  import opened KeyTexts

  datatype TargetWeight = TargetWeight(symbol: string, targetWeight: real, currentWeight: real)

  datatype RebalanceMandate = RebalanceMandate(
    mandateId: string,
    decisionTime: int,
    portfolioValue: real,
    targets: seq<TargetWeight>,
    minTradeNotional: real,
    maxTurnover: real)
  {
    /** What construction accepts; anything else raises MandateError. */
    ghost predicate Constructible() {
      0.0 < portfolioValue && DistinctSymbols(targets)
    }
  }

  datatype MandateError = MandateError

  ghost predicate DistinctSymbols(targets: seq<TargetWeight>) {
    forall i, j :: 0 <= i < j < |targets| ==> targets[i].symbol != targets[j].symbol
  }

  function TargetFor(symbol: string, target: Weights, current: Weights): TargetWeight {
    TargetWeight(symbol, Get(target, symbol), Get(current, symbol))
  }

  /** One target for each name held or wanted; a name to be sold off has target 0. */
  function TargetsFor(symbols: seq<string>, target: Weights, current: Weights): seq<TargetWeight> {
    if symbols == [] then []
    else TargetsFor(symbols[..|symbols| - 1], target, current)
         + (var t := TargetFor(symbols[|symbols| - 1], target, current);
            if t.targetWeight != 0.0 || t.currentWeight != 0.0 then [t] else [])
  }

  function MandateTargets(target: Weights, current: Weights): seq<TargetWeight> {
    TargetsFor(SortedKeys(target.Keys + current.Keys), target, current)
  }

  // ----- the idempotency key

  function TargetParts(targets: seq<TargetWeight>): seq<Part> {
    if targets == [] then []
    else TargetParts(targets[..|targets| - 1]) + [(targets[|targets| - 1].symbol, Quantize(targets[|targets| - 1].targetWeight, 10000))]
  }

  function TargetOrder(): (TargetWeight, TargetWeight) -> bool {
    (a: TargetWeight, b: TargetWeight) => Leq(a.symbol, b.symbol)
  }

  /** `sorted(targets, key=...)`. */
  function InOrder(targets: seq<TargetWeight>): seq<TargetWeight> {
    Sorting.Sort(TargetOrder(), targets)
  }

  function KeyOf(decisionTime: int, portfolioValue: real, targets: seq<TargetWeight>): MandateKey {
    MandateKey(decisionTime, Quantize(portfolioValue, 100), TargetParts(InOrder(targets)))
  }

  /** Sorts, appends the parts of the key one target at a time, and joins them. */
  method JoinKey(decisionTime: int, portfolioValue: real, targets: seq<TargetWeight>, iso: int -> string) returns (text: string)
    ensures text == KeyText(KeyOf(decisionTime, portfolioValue, targets), iso)
  {
    hide Quantize, PartText, NumberText, Joined, InOrder;
    var ordered := InOrder(targets);
    var head := [iso(decisionTime), NumberText(Quantize(portfolioValue, 100), 2)];
    var parts := head;
    assert ordered[..0] == [] && ordered[..|ordered|] == ordered;
    for i := 0 to |ordered|
      invariant parts == head + PartTexts(TargetParts(ordered[..i]))
    {
      assert ordered[..i + 1][..i] == ordered[..i];
      ghost var before := TargetParts(ordered[..i]);
      var part: Part := (ordered[i].symbol, Quantize(ordered[i].targetWeight, 10000));
      assert (before + [part])[..|before|] == before;
      parts := parts + [PartText(part)];
    }
    text := Joined(parts);
  }

  lemma TargetOrderIsTotal()
    ensures Sorting.TotalPreorder(TargetOrder())
  {
    var leq := TargetOrder();
    forall x, y ensures leq(x, y) || leq(y, x) { LeqTotal(x.symbol, y.symbol); }
    forall x, y, z | leq(x, y) && leq(y, z) ensures leq(x, z) { LeqTransitive(x.symbol, y.symbol, z.symbol); }
  }

  /** The order the targets are given in leaves no trace in the key. */
  lemma KeyIgnoresOrder(t: int, v: real, ws1: seq<TargetWeight>, ws2: seq<TargetWeight>)
    requires DistinctSymbols(ws1) && multiset(ws1) == multiset(ws2)
    ensures KeyOf(t, v, ws1) == KeyOf(t, v, ws2)
  {
    var leq := TargetOrder();
    var xs, ys := InOrder(ws1), InOrder(ws2);
    TargetOrderIsTotal();
    Sorting.SortSorted(leq, ws1);
    Sorting.SortSorted(leq, ws2);
    Sorting.SortElements(leq, ws1);
    Sorting.SortElements(leq, ws2);
    Sorting.SortMembers(leq, ws1);
    forall x, y | x in xs && y in xs && leq(x, y) && leq(y, x) ensures x == y {
      LeqAntisymmetric(x.symbol, y.symbol);
      var i :| 0 <= i < |ws1| && ws1[i] == x;
      var j :| 0 <= j < |ws1| && ws1[j] == y;
    }
    Sorting.SortedUnique(leq, xs, ys);
  }

  lemma {:induction false} TargetPartsAt(targets: seq<TargetWeight>)
    ensures |TargetParts(targets)| == |targets|
    ensures forall i :: 0 <= i < |targets| ==> TargetParts(targets)[i] == (targets[i].symbol, Quantize(targets[i].targetWeight, 10000))
  {
    hide Quantize;
    if targets != [] { TargetPartsAt(targets[..|targets| - 1]); }
  }

  /** Equal keys, spelled out: the same time, and value and targets that read the same. */
  lemma SameKeyExactly(t1: int, v1: real, ws1: seq<TargetWeight>, t2: int, v2: real, ws2: seq<TargetWeight>)
    ensures var xs, ys := InOrder(ws1), InOrder(ws2);
      KeyOf(t1, v1, ws1) == KeyOf(t2, v2, ws2)
      <==> (&& t1 == t2 && Quantize(v1, 100) == Quantize(v2, 100) && |xs| == |ys|
            && forall i :: 0 <= i < |xs| ==>
                 && xs[i].symbol == ys[i].symbol
                 && Quantize(xs[i].targetWeight, 10000) == Quantize(ys[i].targetWeight, 10000))
  {
    hide Quantize, InOrder;
    var xs, ys := InOrder(ws1), InOrder(ws2);
    TargetPartsAt(xs);
    TargetPartsAt(ys);
    var a, b := TargetParts(xs), TargetParts(ys);
    if a == b {
      forall i | 0 <= i < |xs|
        ensures xs[i].symbol == ys[i].symbol && Quantize(xs[i].targetWeight, 10000) == Quantize(ys[i].targetWeight, 10000)
      {
        assert a[i] == b[i];
      }
    } else if |xs| == |ys| {
      var i :| 0 <= i < |a| && a[i] != b[i];
      assert xs[i].symbol != ys[i].symbol || Quantize(xs[i].targetWeight, 10000) != Quantize(ys[i].targetWeight, 10000);
    }
  }

  /** Agreeing to the basis point is not quite enough: a hair below zero reads as minus
      zero. */
  lemma MinusZeroReadsApart()
    ensures Quantize(-0.00001, 10000).units == Quantize(0.0, 10000).units
    ensures NumberText(Quantize(-0.00001, 10000), 4) == "-0.0000"
    ensures NumberText(Quantize(0.0, 10000), 4) == "0.0000"
  {
    hide NumberText;
    ZeroText(true);
    ZeroText(false);
    assert Quantize(-0.00001, 10000) == Quantized(true, 0) && Quantize(0.0, 10000) == Quantized(false, 0);
  }

  lemma ZeroText(negative: bool)
    ensures NumberText(Quantized(negative, 0), 4) == if negative then "-0.0000" else "0.0000"
  {
    PaddedZero();
    hide Padded;
    assert Power(0) == 1 && Power(1) == 10 && Power(2) == 100 && Power(3) == 1000 && Power(4) == 10000;
  }

  lemma PaddedZero()
    ensures Padded(0, 4) == "0000"
  {
    assert Padded(0, 1) == "0" && Padded(0, 2) == "00" && Padded(0, 3) == "000";
  }

  /** How instants are written, and the first 32 characters of SHA-256. */
  datatype Digest = Digest(iso: int -> string, hash: string -> string)

  ghost predicate NoCollision(digest: Digest, s: string, t: string) {
    |digest.hash(s)| == 32 && |digest.hash(t)| == 32 && (digest.hash(s) == digest.hash(t) ==> s == t)
  }

  function TextOf(decisionTime: int, portfolioValue: real, targets: seq<TargetWeight>, digest: Digest): string {
    KeyText(KeyOf(decisionTime, portfolioValue, targets), digest.iso)
  }

  function MandateId(decisionTime: int, portfolioValue: real, targets: seq<TargetWeight>, digest: Digest): string {
    "mandate-" + digest.hash(TextOf(decisionTime, portfolioValue, targets, digest))
  }

  function BuildMandate(decisionTime: int, portfolioValue: real, target: Weights, current: Weights,
                        minTradeNotional: real, maxTurnover: real, digest: Digest): Result<RebalanceMandate, MandateError>
  {
    var targets := MandateTargets(target, current);
    if portfolioValue <= 0.0 then Failure(MandateError)
    else Success(RebalanceMandate(MandateId(decisionTime, portfolioValue, targets, digest), decisionTime,
                                  portfolioValue, targets, minTradeNotional, maxTurnover))
  }

  // ----- implied turnover

  function Traded(targets: seq<TargetWeight>): real {
    if targets == [] then 0.0
    else Traded(targets[..|targets| - 1])
         + Abs(targets[|targets| - 1].targetWeight - targets[|targets| - 1].currentWeight)
  }

  function ImpliedTurnover(mandate: RebalanceMandate): real {
    Traded(mandate.targets) / 2.0
  }

  lemma {:induction false} TargetsForNames(symbols: seq<string>, target: Weights, current: Weights)
    ensures forall t :: t in TargetsFor(symbols, target, current) ==>
              t.symbol in symbols && t == TargetFor(t.symbol, target, current)
              && (t.targetWeight != 0.0 || t.currentWeight != 0.0)
    ensures forall s :: s in symbols && (Get(target, s) != 0.0 || Get(current, s) != 0.0) ==>
              TargetFor(s, target, current) in TargetsFor(symbols, target, current)
  {
    if symbols != [] {
      var front, s := symbols[..|symbols| - 1], symbols[|symbols| - 1];
      TargetsForNames(front, target, current);
      assert forall k :: k in symbols <==> k in front || k == s by { assert symbols == front + [s]; }
    }
  }

  lemma {:induction false} TargetsForDistinct(symbols: seq<string>, target: Weights, current: Weights)
    requires Distinct(symbols)
    ensures DistinctSymbols(TargetsFor(symbols, target, current))
  {
    if symbols != [] {
      var front, s := symbols[..|symbols| - 1], symbols[|symbols| - 1];
      TargetsForDistinct(front, target, current);
      TargetsForNames(front, target, current);
      var kept := TargetsFor(front, target, current);
      forall i | 0 <= i < |kept| ensures kept[i].symbol != s {
        assert kept[i] in kept;
        assert s !in front;
      }
    }
  }

  /** The mandate lists exactly the names held or wanted, each once, exits included. */
  lemma MandateTargetsExact(target: Weights, current: Weights)
    ensures DistinctSymbols(MandateTargets(target, current))
    ensures forall t: TargetWeight :: t in MandateTargets(target, current) <==>
              t == TargetFor(t.symbol, target, current) && (t.targetWeight != 0.0 || t.currentWeight != 0.0)
  {
    var symbols := SortedKeys(target.Keys + current.Keys);
    TargetsForNames(symbols, target, current);
    TargetsForDistinct(symbols, target, current);
    forall t: TargetWeight | t == TargetFor(t.symbol, target, current) && (t.targetWeight != 0.0 || t.currentWeight != 0.0)
      ensures t in MandateTargets(target, current)
    {
      assert t.symbol in symbols;
    }
  }

  function Names(symbols: seq<string>): set<string> {
    set s | s in symbols
  }

  ghost predicate Distinct(symbols: seq<string>) {
    forall i, j :: 0 <= i < j < |symbols| ==> symbols[i] != symbols[j]
  }

  lemma NamesSnoc(symbols: seq<string>)
    requires symbols != [] && Distinct(symbols)
    ensures var front, s := symbols[..|symbols| - 1], symbols[|symbols| - 1];
      Distinct(front) && s !in Names(front) && Names(symbols) == Names(front) + {s}
  {
    assert symbols == symbols[..|symbols| - 1] + [symbols[|symbols| - 1]];
  }

  lemma TradedStep(symbols: seq<string>, target: Weights, current: Weights)
    requires symbols != []
    ensures Traded(TargetsFor(symbols, target, current))
            == Traded(TargetsFor(symbols[..|symbols| - 1], target, current)) + Change(current, target)(symbols[|symbols| - 1])
  {
    var kept, t := TargetsFor(symbols[..|symbols| - 1], target, current), TargetFor(symbols[|symbols| - 1], target, current);
    assert (kept + [t])[..|kept|] == kept && kept + [] == kept;
  }

  lemma {:induction false} TradedIsSum(symbols: seq<string>, target: Weights, current: Weights)
    requires Distinct(symbols)
    ensures Traded(TargetsFor(symbols, target, current)) == Sum(Names(symbols), Change(current, target))
  {
    hide Sum, TargetsFor, Change, Distinct;
    if symbols == [] {
      NoTargets(target, current);
      assert Names(symbols) == {};
      SumZero({}, Change(current, target));
    } else {
      hide Traded, Names;
      var front, s := symbols[..|symbols| - 1], symbols[|symbols| - 1];
      NamesSnoc(symbols);
      TradedIsSum(front, target, current);
      SumAdd(Names(front), s, Change(current, target));
      TradedStep(symbols, target, current);
    }
  }

  lemma NoTargets(target: Weights, current: Weights)
    ensures TargetsFor([], target, current) == []
  {
  }

  /** The turnover a mandate implies is the turnover the risk engine measured. */
  lemma ImpliedIsMeasured(target: Weights, current: Weights, mandate: RebalanceMandate)
    requires mandate.targets == MandateTargets(target, current)
    ensures ImpliedTurnover(mandate) == Turnover(current, target)
  {
    hide Sum, SortedKeys;
    var symbols := SortedKeys(target.Keys + current.Keys);
    TradedIsSum(symbols, target, current);
    assert Names(symbols) == current.Keys + target.Keys;
  }

  /** No symbol of it reads as a target followed by another. */
  ghost predicate Unambiguous(targets: seq<TargetWeight>) {
    forall t :: t in targets ==> !ReadsAsTarget(t.symbol)
  }

  /** Short of a collision of the digest, two mandates share an id exactly when their keys
      read the same; which, unless a symbol itself reads as a target, is when they have the
      same key: a replayed decision keeps its id, and only it. */
  lemma SameIdExactly(t1: int, v1: real, ws1: seq<TargetWeight>, t2: int, v2: real, ws2: seq<TargetWeight>, digest: Digest)
    requires NoCollision(digest, TextOf(t1, v1, ws1, digest), TextOf(t2, v2, ws2, digest))
    requires ReadsBack(digest.iso, t1, t2)
    ensures |MandateId(t1, v1, ws1, digest)| == 40
    ensures MandateId(t1, v1, ws1, digest) == MandateId(t2, v2, ws2, digest)
            <==> TextOf(t1, v1, ws1, digest) == TextOf(t2, v2, ws2, digest)
    ensures Unambiguous(ws1) && Unambiguous(ws2) ==>
              (MandateId(t1, v1, ws1, digest) == MandateId(t2, v2, ws2, digest) <==> KeyOf(t1, v1, ws1) == KeyOf(t2, v2, ws2))
  {
    hide KeyText, KeyOf, Unambiguous;
    var a, b := digest.hash(TextOf(t1, v1, ws1, digest)), digest.hash(TextOf(t2, v2, ws2, digest));
    assert ("mandate-" + a)[8..] == a && ("mandate-" + b)[8..] == b;
    if Unambiguous(ws1) && Unambiguous(ws2) {
      KeySound(t1, v1, ws1);
      KeySound(t2, v2, ws2);
      KeyReadsBack(KeyOf(t1, v1, ws1), KeyOf(t2, v2, ws2), digest.iso);
    }
  }

  lemma KeySound(t: int, v: real, ws: seq<TargetWeight>)
    ensures Sound(KeyOf(t, v, ws)) && KeyOf(t, v, ws).decisionTime == t
    ensures Unambiguous(ws) ==> ReadOnce(KeyOf(t, v, ws).targets)
  {
    hide Quantize, ReadsAsTarget;
    QuantizeSigned(v, 100);
    var xs := InOrder(ws);
    Sorting.SortMembers(TargetOrder(), ws);
    hide InOrder;
    TargetPartsAt(xs);
    var parts := TargetParts(xs);
    forall p | p in parts ensures p.1.Signed() && (Unambiguous(ws) ==> !ReadsAsTarget(p.0)) {
      var i :| 0 <= i < |parts| && parts[i] == p;
      QuantizeSigned(xs[i].targetWeight, 10000);
      assert xs[i] in ws;
    }
  }

  /** A symbol that does read as a target breaks it, for any digest: the decision to hold it
      alone has the id of the decision to hold the two names it reads as. */
  lemma MisreadSymbolSharesItsId(first: string, second: string, x: real, y: real, time: int, value: real,
                                 minTrade: real, maxTurnover: real, digest: Digest)
    requires Leq(first, second) && first != second && x != 0.0 && y != 0.0 && 0.0 < value
    ensures var symbol := Misread(first, Quantize(x, 10000), second);
      var two := BuildMandate(time, value, map[first := x, second := y], map[], minTrade, maxTurnover, digest);
      var one := BuildMandate(time, value, map[symbol := y], map[], minTrade, maxTurnover, digest);
      && two.Success? && one.Success?
      && two.value.mandateId == one.value.mandateId
      && two.value.targets == [TargetWeight(first, x, 0.0), TargetWeight(second, y, 0.0)]
      && one.value.targets == [TargetWeight(symbol, y, 0.0)]
  {
    hide Quantize, Misread, KeyText, SortedKeys, Leq;
    var symbol := Misread(first, Quantize(x, 10000), second);
    var target: Weights := map[first := x, second := y];
    var alone: Weights := map[symbol := y];
    TwoTargets(first, second, target, map[]);
    OneTarget(symbol, alone, map[]);
    var two, one := [TargetWeight(first, x, 0.0), TargetWeight(second, y, 0.0)], [TargetWeight(symbol, y, 0.0)];
    assert MandateTargets(target, map[]) == two;
    assert MandateTargets(alone, map[]) == one;
    TwoParts(two[0], two[1]);
    OnePart(one[0]);
    assert InOrder(two) == two && InOrder(one) == one by { TwoInOrder(two[0], two[1]); OneInOrder(one[0]); }
    MisreadCollides(time, Quantize(value, 100), first, Quantize(x, 10000), second, Quantize(y, 10000), digest.iso);
  }

  lemma TwoParts(a: TargetWeight, b: TargetWeight)
    ensures TargetParts([a, b]) == [(a.symbol, Quantize(a.targetWeight, 10000)), (b.symbol, Quantize(b.targetWeight, 10000))]
  {
    hide Quantize;
    OnePart(a);
    assert [a, b][..1] == [a];
  }

  lemma OnePart(a: TargetWeight)
    ensures TargetParts([a]) == [(a.symbol, Quantize(a.targetWeight, 10000))]
  {
    hide Quantize;
    assert [a][..0] == [] && TargetParts([]) == [];
  }

  lemma OneInOrder(a: TargetWeight)
    ensures InOrder([a]) == [a]
  {
    Sorting.SortOfSorted(TargetOrder(), [a]);
  }

  lemma TwoInOrder(a: TargetWeight, b: TargetWeight)
    requires Leq(a.symbol, b.symbol)
    ensures InOrder([a, b]) == [a, b]
  {
    hide Leq;
    Sorting.SortOfSorted(TargetOrder(), [a, b]);
  }

  lemma OneTarget(a: string, target: Weights, current: Weights)
    requires target.Keys + current.Keys == {a} && Get(target, a) != 0.0
    ensures MandateTargets(target, current) == [TargetFor(a, target, current)]
  {
    SortedOne(a);
    assert TargetsFor([], target, current) == [] && [a][..0] == [];
  }

  lemma TwoTargets(a: string, b: string, target: Weights, current: Weights)
    requires Leq(a, b) && a != b && target.Keys + current.Keys == {a, b} && Get(target, a) != 0.0 && Get(target, b) != 0.0
    ensures MandateTargets(target, current) == [TargetFor(a, target, current), TargetFor(b, target, current)]
  {
    hide SortedKeys;
    SortedTwo(a, b);
    assert TargetsFor([], target, current) == [] && [a][..0] == [] && [a, b][..1] == [a];
    assert TargetsFor([a], target, current) == [TargetFor(a, target, current)];
  }

  lemma SortedOne(a: string)
    ensures SortedKeys({a}) == [a]
  {
    hide Leq;
    assert {a} - {a} == {};
    assert SortedKeys({}) == [];
  }

  lemma SortedTwo(a: string, b: string)
    requires Leq(a, b) && a != b
    ensures SortedKeys({a, b}) == [a, b]
  {
    var m := Least({a, b});
    if m == b { LeqAntisymmetric(a, b); }
    hide Leq;
    SortedOne(b);
    assert {a, b} - {a} == {b};
  }
}

/** How far the weights reached are from the weights asked for. */
module Reconciliations {
  import opened Arithmetic
  import opened Options
  import opened Ordering
  import opened Sums
  import opened RiskEngine
  import opened RiskTheorems
  import opened Mandates

  datatype Reconciliation = Reconciliation(
    perSymbolDrift: map<string, real>,
    totalAbsoluteDrift: real,
    realizedTurnover: real,
    maxDriftSymbol: Option<string>)

  function DriftOfTargets(targets: seq<TargetWeight>, realized: Weights): map<string, real> {
    if targets == [] then map[]
    else
      var t := targets[|targets| - 1];
      DriftOfTargets(targets[..|targets| - 1], realized)[t.symbol := Get(realized, t.symbol) - t.targetWeight]
  }

  /** What the executor filled without being asked counts in full. */
  function Drift(targets: seq<TargetWeight>, realized: Weights): map<string, real> {
    var asked := DriftOfTargets(targets, realized);
    map s | s in asked.Keys + realized.Keys :: if s in asked then asked[s] else realized[s]
  }

  function AbsEntry(m: map<string, real>): Vector {
    s => Abs(Get(m, s))
  }

  function RealizedTrade(targets: seq<TargetWeight>, realized: Weights): real {
    if targets == [] then 0.0
    else
      var t := targets[|targets| - 1];
      RealizedTrade(targets[..|targets| - 1], realized) + Abs(Get(realized, t.symbol) - t.currentWeight)
  }

  function SymbolsOf(targets: seq<TargetWeight>): seq<string> {
    if targets == [] then [] else SymbolsOf(targets[..|targets| - 1]) + [targets[|targets| - 1].symbol]
  }

  /** A dictionary's order: each key once. */
  ghost predicate Lists(order: seq<string>, keys: set<string>) {
    Distinct(order) && forall k :: k in order <==> k in keys
  }

  function NotAmong(symbols: seq<string>): string -> bool {
    s => s !in symbols
  }

  /** The names of a drift in the order they came in, the targets first. */
  function DriftOrder(targets: seq<TargetWeight>, order: seq<string>): seq<string> {
    SymbolsOf(targets) + Sorting.Filter(NotAmong(SymbolsOf(targets)), order)
  }

  /** `max(names, key=...)`: the first name that drifted furthest. */
  function Worst(drift: map<string, real>, names: seq<string>): Option<string> {
    if names == [] then None
    else
      var worst, last := Worst(drift, names[..|names| - 1]), names[|names| - 1];
      if worst.Some? && DriftSize(drift, last) <= DriftSize(drift, worst.value) then worst else Some(last)
  }

  /** `order` is the order of the dictionary of realized weights. */
  function Reconcile(mandate: RebalanceMandate, realized: Weights, order: seq<string>): Reconciliation {
    var drift := Drift(mandate.targets, realized);
    Reconciliation(drift, Sum(drift.Keys, AbsEntry(drift)), RealizedTrade(mandate.targets, realized) / 2.0,
                   Worst(drift, DriftOrder(mandate.targets, order)))
  }

  function DriftSize(drift: map<string, real>, s: string): real {
    Abs(Get(drift, s))
  }

  /** The first of the largest. */
  ghost predicate FirstWorst(drift: map<string, real>, names: seq<string>, i: int) {
    && 0 <= i < |names|
    && (forall j :: 0 <= j < |names| ==> DriftSize(drift, names[j]) <= DriftSize(drift, names[i]))
    && (forall j :: 0 <= j < i ==> DriftSize(drift, names[j]) < DriftSize(drift, names[i]))
  }

  lemma {:induction false} WorstAmong(drift: map<string, real>, names: seq<string>) returns (i: nat)
    requires names != []
    ensures i < |names| && FirstWorst(drift, names, i) && Worst(drift, names) == Some(names[i])
  {
    hide DriftSize;
    var n := |names| - 1;
    if n == 0 {
      i := 0;
    } else {
      i := WorstAmong(drift, names[..n]);
      if DriftSize(drift, names[i]) < DriftSize(drift, names[n]) { i := n; }
    }
  }

  lemma {:induction false} SymbolsOfTargets(targets: seq<TargetWeight>, realized: Weights)
    ensures forall s :: s in SymbolsOf(targets) <==> s in DriftOfTargets(targets, realized)
  {
    if targets != [] { SymbolsOfTargets(targets[..|targets| - 1], realized); }
  }

  /** The symbol reported is the first that drifted furthest, and is missing only when there
      is nothing to compare. */
  lemma WorstDriftIsWorst(mandate: RebalanceMandate, realized: Weights, order: seq<string>)
    requires Lists(order, realized.Keys)
    ensures var r := Reconcile(mandate, realized, order); var names := DriftOrder(mandate.targets, order);
      && (r.maxDriftSymbol == None <==> r.perSymbolDrift == map[])
      && (forall s :: s in names <==> s in r.perSymbolDrift)
      && (r.maxDriftSymbol.Some? ==>
            exists i :: FirstWorst(r.perSymbolDrift, names, i) && r.maxDriftSymbol == Some(names[i]))
  {
    hide Sum, SymbolsOf, DriftOfTargets, FirstWorst, Drift, DriftOrder, Lists;
    var names := DriftOrder(mandate.targets, order);
    OrderCovers(mandate.targets, realized, order);
    if names != [] {
      var _ := WorstAmong(Drift(mandate.targets, realized), names);
    }
  }

  lemma OrderCovers(targets: seq<TargetWeight>, realized: Weights, order: seq<string>)
    requires Lists(order, realized.Keys)
    ensures forall s :: s in DriftOrder(targets, order) <==> s in Drift(targets, realized)
    ensures DriftOrder(targets, order) == [] <==> Drift(targets, realized) == map[]
  {
    hide SymbolsOf, DriftOfTargets;
    SymbolsOfTargets(targets, realized);
    Sorting.FilterMembers(NotAmong(SymbolsOf(targets)), order);
    var names := DriftOrder(targets, order);
    assert forall s :: s in names <==> s in Drift(targets, realized);
    if names != [] { assert names[0] in Drift(targets, realized); }
  }

  /** The drift once the realized names in `done` have been looked at. */
  function DriftAfter(asked: map<string, real>, done: set<string>, realized: Weights): map<string, real> {
    map s | s in asked.Keys + (done * realized.Keys) :: if s in asked then asked[s] else realized[s]
  }

  lemma DriftAfterStep(asked: map<string, real>, done: set<string>, k: string, realized: Weights)
    requires k in realized && k !in done
    ensures var before := DriftAfter(asked, done, realized);
      && (k in before <==> k in asked)
      && DriftAfter(asked, done + {k}, realized) == if k in before then before else before[k := realized[k]]
    ensures DriftAfter(asked, {}, realized) == asked
  {
  }

  lemma DriftAfterAll(targets: seq<TargetWeight>, realized: Weights)
    ensures DriftAfter(DriftOfTargets(targets, realized), {}, realized) == DriftOfTargets(targets, realized)
    ensures DriftAfter(DriftOfTargets(targets, realized), realized.Keys, realized) == Drift(targets, realized)
  {
    hide DriftOfTargets;
    assert realized.Keys * realized.Keys == realized.Keys;
  }

  lemma NoDrift(realized: Weights)
    ensures DriftOfTargets([], realized) == map[] && RealizedTrade([], realized) == 0.0
  {
  }

  lemma DriftStep(targets: seq<TargetWeight>, i: nat, realized: Weights)
    requires i < |targets|
    ensures DriftOfTargets(targets[..i + 1], realized)
         == DriftOfTargets(targets[..i], realized)[targets[i].symbol := Get(realized, targets[i].symbol) - targets[i].targetWeight]
    ensures RealizedTrade(targets[..i + 1], realized)
         == RealizedTrade(targets[..i], realized) + Abs(Get(realized, targets[i].symbol) - targets[i].currentWeight)
  {
    assert targets[..i + 1][..i] == targets[..i];
  }

  /** The loop over what was realized: what no target asked for is drift in full. */
  method AddUnasked(targets: seq<TargetWeight>, asked: map<string, real>, realized: Weights, order: seq<string>) returns (drift: map<string, real>)
    requires Lists(order, realized.Keys) && asked == DriftOfTargets(targets, realized)
    ensures drift == Drift(targets, realized)
  {
    assert Seen(order, 0) == {} && Seen(order, |order|) == realized.Keys;
    DriftAfterAll(targets, realized);
    hide DriftAfter, Seen, Drift, DriftOfTargets;
    drift := asked;
    for i := 0 to |order|
      invariant drift == DriftAfter(asked, Seen(order, i), realized)
    {
      SeenStep(order, i);
      assert order[i] in order;
      DriftAfterStep(asked, Seen(order, i), order[i], realized);
      if order[i] !in drift {
        drift := drift[order[i] := realized[order[i]]];
      }
    }
  }

  method ReconcileLoop(mandate: RebalanceMandate, realized: Weights, order: seq<string>) returns (r: Reconciliation)
    requires Lists(order, realized.Keys)
    ensures r == Reconcile(mandate, realized, order)
  {
    NoDrift(realized);
    hide Sum, Lists, Drift, DriftOfTargets, RealizedTrade, Worst, DriftOrder, Abs;
    var drift: map<string, real> := map[];
    var traded := 0.0;
    var targets := mandate.targets;
    assert targets[..0] == [] && targets[..|targets|] == targets;
    for i := 0 to |targets|
      invariant drift == DriftOfTargets(targets[..i], realized)
      invariant traded == RealizedTrade(targets[..i], realized)
    {
      DriftStep(targets, i, realized);
      drift := drift[targets[i].symbol := Get(realized, targets[i].symbol) - targets[i].targetWeight];
      traded := traded + Abs(Get(realized, targets[i].symbol) - targets[i].currentWeight);
    }
    drift := AddUnasked(targets, drift, realized, order);
    r := Reconciliation(drift, Sum(drift.Keys, AbsEntry(drift)), traded / 2.0, Worst(drift, DriftOrder(targets, order)));
  }

  lemma {:induction false} DriftOfTarget(targets: seq<TargetWeight>, realized: Weights, t: TargetWeight)
    requires DistinctSymbols(targets) && t in targets
    ensures Get(DriftOfTargets(targets, realized), t.symbol) == Get(realized, t.symbol) - t.targetWeight
  {
    var front, last := targets[..|targets| - 1], targets[|targets| - 1];
    if t != last {
      var i :| 0 <= i < |front| && targets[i] == t;
      assert front[i] == t;
      DriftOfTarget(front, realized, t);
    }
  }

  lemma {:induction false} DriftOfNone(targets: seq<TargetWeight>, realized: Weights, s: string)
    requires forall t :: t in targets ==> t.symbol != s
    ensures s !in DriftOfTargets(targets, realized)
  {
    if targets != [] { DriftOfNone(targets[..|targets| - 1], realized, s); }
  }

  /** Reconciling a mandate finds, for every name decided or achieved, exactly the achieved
      weight less the decided one, and its total drift is twice the turnover between the
      two books: none exactly when execution did what was decided. */
  lemma DriftIsExact(target: Weights, current: Weights, mandate: RebalanceMandate, realized: Weights, order: seq<string>, s: string)
    requires mandate.targets == MandateTargets(target, current)
    ensures var r := Reconcile(mandate, realized, order);
      && Get(r.perSymbolDrift, s) == Get(realized, s) - Get(target, s)
      && r.totalAbsoluteDrift == 2.0 * Turnover(target, realized)
  {
    hide Sum, Drift;
    var drift := Drift(mandate.targets, realized);
    forall k ensures Get(drift, k) == Get(realized, k) - Get(target, k) { DriftAt(target, current, mandate, realized, k); }
    DriftTotal(drift, target, realized);
  }

  lemma DriftTotal(drift: map<string, real>, target: Weights, realized: Weights)
    requires forall k :: Get(drift, k) == Get(realized, k) - Get(target, k)
    ensures Sum(drift.Keys, AbsEntry(drift)) == 2.0 * Turnover(target, realized)
  {
    hide Sum;
    var keys := drift.Keys + target.Keys + realized.Keys;
    SumWiden(drift.Keys, keys, AbsEntry(drift));
    TurnoverOver(target, realized, keys);
    SumEqual(keys, AbsEntry(drift), Change(target, realized));
  }

  lemma DriftAt(target: Weights, current: Weights, mandate: RebalanceMandate, realized: Weights, k: string)
    requires mandate.targets == MandateTargets(target, current)
    ensures Get(Drift(mandate.targets, realized), k) == Get(realized, k) - Get(target, k)
  {
    hide MandateTargets;
    MandateTargetsExact(target, current);
    var t := TargetFor(k, target, current);
    hide DriftOfTargets, DistinctSymbols;
    if t in mandate.targets {
      DriftOfTarget(mandate.targets, realized, t);
      TargetDrifts(mandate.targets, realized, t);
    } else {
      assert forall u :: u in mandate.targets ==> u == TargetFor(u.symbol, target, current);
      DriftOfNone(mandate.targets, realized, k);
    }
  }

  lemma {:induction false} TargetDrifts(targets: seq<TargetWeight>, realized: Weights, t: TargetWeight)
    requires t in targets
    ensures t.symbol in DriftOfTargets(targets, realized)
  {
    var front, last := targets[..|targets| - 1], targets[|targets| - 1];
    if t != last {
      assert t in front by { assert targets == front + [last]; }
      TargetDrifts(front, realized, t);
    }
  }

  lemma {:induction false} TradeWithin(targets: seq<TargetWeight>, realized: Weights)
    ensures RealizedTrade(targets, realized) <= Traded(targets) + MissedBy(targets, realized)
  {
    if targets != [] { TradeWithin(targets[..|targets| - 1], realized); }
  }

  /** How far execution ended from the targets. */
  function MissedBy(targets: seq<TargetWeight>, realized: Weights): real {
    if targets == [] then 0.0
    else
      var t := targets[|targets| - 1];
      MissedBy(targets[..|targets| - 1], realized) + Abs(Get(realized, t.symbol) - t.targetWeight)
  }

  lemma MissedStep(symbols: seq<string>, target: Weights, current: Weights, realized: Weights)
    requires symbols != []
    ensures MissedBy(TargetsFor(symbols, target, current), realized)
            <= MissedBy(TargetsFor(symbols[..|symbols| - 1], target, current), realized) + Change(target, realized)(symbols[|symbols| - 1])
  {
    var kept, t := TargetsFor(symbols[..|symbols| - 1], target, current), TargetFor(symbols[|symbols| - 1], target, current);
    assert (kept + [t])[..|kept|] == kept && kept + [] == kept;
  }

  lemma {:induction false} MissedIsDrift(symbols: seq<string>, target: Weights, current: Weights, realized: Weights)
    requires Distinct(symbols)
    ensures MissedBy(TargetsFor(symbols, target, current), realized) <= Sum(Names(symbols), Change(target, realized))
  {
    hide Sum, TargetsFor, Change, Distinct;
    if symbols == [] {
      NoTargets(target, current);
      assert Names(symbols) == {};
      SumZero({}, Change(target, realized));
    } else {
      hide MissedBy, Names;
      var front, s := symbols[..|symbols| - 1], symbols[|symbols| - 1];
      NamesSnoc(symbols);
      MissedIsDrift(front, target, current, realized);
      SumAdd(Names(front), s, Change(target, realized));
      MissedStep(symbols, target, current, realized);
    }
  }

  /** Execution can exceed the turnover decided by at most half the drift it is charged
      with. */
  lemma RealizedTurnoverBounded(target: Weights, current: Weights, mandate: RebalanceMandate, realized: Weights, order: seq<string>)
    requires mandate.targets == MandateTargets(target, current)
    ensures var r := Reconcile(mandate, realized, order);
      r.realizedTurnover <= ImpliedTurnover(mandate) + r.totalAbsoluteDrift / 2.0
  {
    hide Sum, SortedKeys;
    var symbols := SortedKeys(target.Keys + current.Keys);
    var decided := Names(symbols);
    TradeWithin(mandate.targets, realized);
    MissedIsDrift(symbols, target, current, realized);
    DriftIsExact(target, current, mandate, realized, order, "");
    var keys := decided + target.Keys + realized.Keys;
    TurnoverOver(target, realized, keys);
    PartOfChange(decided, keys, target, realized);
  }

  lemma PartOfChange(part: set<string>, keys: set<string>, x: Weights, y: Weights)
    requires part <= keys
    ensures Sum(part, Change(x, y)) <= Sum(keys, Change(x, y))
    decreases keys
  {
    hide Sum;
    if part != keys {
      assert keys - part != {} by { assert forall k :: k in keys ==> k in part || k in keys - part; }
      var k := Least(keys - part);
      SumRemove(keys, k, Change(x, y));
      PartOfChange(part, keys - {k}, x, y);
    }
  }
}

/** The risk engine's turnover cap, carried across the execution boundary. */
module MandateTheorems {
  import opened Policies
  import opened RiskEngine
  import opened RiskTheorems
  import opened Mandates

  /** Every mandate built from weights the engine did not refuse meets its own turnover
      limit, which neither the gate nor any executor checks. */
  lemma EveryMandateMeetsItsTurnover(proposed: Weights, ctx: RiskContext, policy: InvestmentPolicy, num: Numerics,
                                     decisionTime: int, portfolioValue: real, digest: Digest)
    requires 0.0 <= policy.maxTurnover
    ensures var a := Evaluate(proposed, ctx, policy, num);
      var built := BuildMandate(decisionTime, portfolioValue, a.weights, ctx.currentWeights, a.minTradeNotional, policy.maxTurnover, digest);
      built.Success? ==>
        && built.value.Constructible()
        && ImpliedTurnover(built.value) == Turnover(ctx.currentWeights, a.weights)
        && ImpliedTurnover(built.value) <= built.value.maxTurnover
  {
    hide Evaluate, Turnover, MandateTargets, ImpliedTurnover;
    var a := Evaluate(proposed, ctx, policy, num);
    TurnoverWithinCap(proposed, ctx, policy, num);
    MandateTargetsExact(a.weights, ctx.currentWeights);
    var built := BuildMandate(decisionTime, portfolioValue, a.weights, ctx.currentWeights, a.minTradeNotional, policy.maxTurnover, digest);
    if built.Success? { ImpliedIsMeasured(a.weights, ctx.currentWeights, built.value); }
  }
}
