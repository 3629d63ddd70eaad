/** The highest expected return a capped, fully invested book can reach
    (`_max_attainable_return` in src/cfa/portfolio.py). */
module Frontier {
  import opened Arithmetic
  import opened Options
  import opened Sorting

  function Descending(): (real, real) -> bool {
    (x: real, y: real) => x >= y
  }

  /** Fill the best asset to the cap, then the next, until the budget is spent. */
  function Fill(rates: seq<real>, cap: real, budget: real): real {
    if rates == [] then 0.0
    else
      var allocation := Min(cap, budget);
      allocation * rates[0] + (if budget - allocation <= 0.0 then 0.0 else Fill(rates[1..], cap, budget - allocation))
  }

  function Best(rates: seq<real>): real
    requires rates != []
  {
    if |rates| == 1 then rates[0]
    else
      var rest := Best(rates[1..]);
      if rates[0] > rest then rates[0] else rest
  }

  /** The largest return when the cap does not bind, the greedy fill when it does. */
  function MaxAttainableReturn(mu: seq<real>, cap: Option<real>): real
    requires mu != []
  {
    if cap.None? || cap.value >= 1.0 then Best(mu) else Fill(Sort(Descending(), mu), cap.value, 1.0)
  }

  lemma FillAt(rates: seq<real>, i: nat, cap: real, budget: real)
    requires i < |rates|
    ensures var allocation := Min(cap, budget);
      Fill(rates[i..], cap, budget)
      == allocation * rates[i] + (if budget - allocation <= 0.0 then 0.0 else Fill(rates[i + 1..], cap, budget - allocation))
    ensures Fill(rates[|rates|..], cap, budget) == 0.0
  {
    assert rates[i..][1..] == rates[i + 1..];
  }

  method GreedyFill(mu: seq<real>, maxWeight: Option<real>) returns (total: real)
    requires mu != []
    ensures total == MaxAttainableReturn(mu, maxWeight)
  {
    hide Fill, Best, Sort;
    if maxWeight.None? || maxWeight.value >= 1.0 {
      return Best(mu);
    }
    var cap, sorted := maxWeight.value, Sort(Descending(), mu);
    assert sorted[0..] == sorted;
    total := 0.0;
    var remaining := 1.0;
    for i := 0 to |sorted|
      invariant Fill(sorted, cap, 1.0) == total + Fill(sorted[i..], cap, remaining)
    {
      FillAt(sorted, i, cap, remaining);
      var allocation := Min(cap, remaining);
      total := total + allocation * sorted[i];
      remaining := remaining - allocation;
      if remaining <= 0.0 {
        return;
      }
    }
    FillAt(sorted, 0, cap, remaining);
  }

  // ----- weight vectors

  function SumOf(w: seq<real>): real {
    if w == [] then 0.0 else w[0] + SumOf(w[1..])
  }

  function ReturnOf(w: seq<real>, mu: seq<real>): real
    requires |w| == |mu|
  {
    if w == [] then 0.0 else w[0] * mu[0] + ReturnOf(w[1..], mu[1..])
  }

  /** Weights between 0 and the cap that spend the budget exactly. */
  ghost predicate Feasible(w: seq<real>, n: nat, cap: real, budget: real) {
    && |w| == n
    && (forall i :: 0 <= i < n ==> 0.0 <= w[i] <= cap)
    && SumOf(w) == budget
  }

  /** What n names can hold at the cap. */
  function Capacity(n: nat, cap: real): real {
    if n == 0 then 0.0 else cap + Capacity(n - 1, cap)
  }

  lemma {:induction false} CapacityIs(n: nat, cap: real)
    ensures Capacity(n, cap) == cap * n as real
    ensures 0.0 <= cap ==> 0.0 <= Capacity(n, cap)
  {
    if n > 0 {
      CapacityIs(n - 1, cap);
      assert cap * n as real == cap * (n - 1) as real + cap;
    }
  }

  lemma {:induction false} SumBounds(w: seq<real>, cap: real)
    requires forall i :: 0 <= i < |w| ==> 0.0 <= w[i] <= cap
    ensures 0.0 <= SumOf(w) <= Capacity(|w|, cap)
  {
    if w != [] { SumBounds(w[1..], cap); }
  }

  lemma ReturnStep(v: real, w: seq<real>, x: real, mu: seq<real>)
    requires |w| == |mu|
    ensures ReturnOf([v] + w, [x] + mu) == Times(v, x) + ReturnOf(w, mu)
    ensures SumOf([v] + w) == v + SumOf(w)
  {
    assert ([v] + w)[1..] == w && ([x] + mu)[1..] == mu;
  }

  lemma FeasibleStep(v: real, w: seq<real>, n: nat, cap: real, budget: real)
    requires Feasible(w, n, cap, budget) && 0.0 <= v <= cap
    ensures Feasible([v] + w, n + 1, cap, v + budget)
  {
    assert ([v] + w)[1..] == w;
  }

  // ----- the greedy fill is attained

  function Allocation(n: nat, cap: real, budget: real): seq<real> {
    if n == 0 then []
    else
      var allocation := Min(cap, budget);
      [allocation] + Allocation(n - 1, cap, if budget - allocation <= 0.0 then 0.0 else budget - allocation)
  }

  lemma AllocationHead(n: nat, cap: real, budget: real)
    requires 0 < n && 0.0 < cap && 0.0 <= budget <= Capacity(n, cap)
    ensures var allocation := Min(cap, budget);
      && 0.0 <= allocation <= cap && 0.0 <= budget - allocation <= Capacity(n - 1, cap)
      && Allocation(n, cap, budget) == [allocation] + Allocation(n - 1, cap, budget - allocation)
  {
    CapacityIs(n - 1, cap);
  }

  lemma {:induction false} AllocationFeasible(rates: seq<real>, cap: real, budget: real)
    requires 0.0 < cap && 0.0 <= budget <= Capacity(|rates|, cap)
    ensures var w := Allocation(|rates|, cap, budget);
      Feasible(w, |rates|, cap, budget) && ReturnOf(w, rates) == Fill(rates, cap, budget)
  {
    if rates == [] {
      FillEmpty(cap, budget);
    } else {
      hide Fill, ReturnOf, Feasible;
      var rest, left := rates[1..], budget - Min(cap, budget);
      AllocationHead(|rates|, cap, budget);
      hide Allocation, Capacity, Min;
      AllocationFeasible(rest, cap, left);
      AllocationStep(rates, cap, budget, Allocation(|rest|, cap, left));
    }
  }

  lemma AllocationStep(rates: seq<real>, cap: real, budget: real, w: seq<real>)
    requires rates != [] && 0.0 < cap && 0.0 <= budget
    requires var left := budget - Min(cap, budget);
      Feasible(w, |rates| - 1, cap, left) && ReturnOf(w, rates[1..]) == Fill(rates[1..], cap, left)
    ensures Feasible([Min(cap, budget)] + w, |rates|, cap, budget)
    ensures ReturnOf([Min(cap, budget)] + w, rates) == Fill(rates, cap, budget)
  {
    FillHead(rates, cap, budget);
    var allocation, left := Min(cap, budget), budget - Min(cap, budget);
    assert 0.0 <= allocation <= cap && allocation + left == budget;
    FeasibleLength(w, |rates| - 1, cap, left);
    hide Fill, ReturnOf, Feasible, Min, SumOf, Times;
    FeasibleStep(allocation, w, |rates| - 1, cap, left);
    assert rates == [rates[0]] + rates[1..];
    ReturnStep(allocation, w, rates[0], rates[1..]);
  }

  lemma FeasibleLength(w: seq<real>, n: nat, cap: real, budget: real)
    requires Feasible(w, n, cap, budget)
    ensures |w| == n
  {
  }

  lemma FillEmpty(cap: real, budget: real)
    ensures Fill([], cap, budget) == 0.0
  {
  }

  lemma FillNothing(rates: seq<real>, cap: real)
    requires 0.0 <= cap
    ensures Fill(rates, cap, 0.0) == 0.0
  {
    if rates != [] {
      assert Min(cap, 0.0) == 0.0;
      assert 0.0 * rates[0] == 0.0;
    }
  }

  // ----- nothing does better on sorted returns

  /** What one more unit of budget can add: no more than any return at least as good as all
      of them, as long as there is room for it. */
  lemma {:induction false} FillLipschitz(rates: seq<real>, cap: real, small: real, large: real, top: real)
    requires Sorted(Descending(), rates) && (forall i :: 0 <= i < |rates| ==> rates[i] <= top)
    requires 0.0 < cap && 0.0 <= small <= large <= Capacity(|rates|, cap)
    ensures Fill(rates, cap, large) - Fill(rates, cap, small) <= Times(large - small, top)
  {
    hide Fill;
    if rates == [] {
      FillEmpty(cap, small);
      FillEmpty(cap, large);
      assert Times(large - small, top) == 0.0 by { assert large - small == 0.0; }
    } else {
      var a, b := Min(cap, large), Min(cap, small);
      hide Times;
      FillHead(rates, cap, large);
      FillHead(rates, cap, small);
      CapacityIs(|rates| - 1, cap);
      FillLipschitz(rates[1..], cap, small - b, large - a, top);
      LipschitzStep(a, b, rates[0], top, Fill(rates[1..], cap, large - a), Fill(rates[1..], cap, small - b), large, small);
    }
  }

  lemma FillHead(rates: seq<real>, cap: real, budget: real)
    requires rates != [] && 0.0 < cap && 0.0 <= budget
    ensures Fill(rates, cap, budget) == Times(Min(cap, budget), rates[0]) + Fill(rates[1..], cap, budget - Min(cap, budget))
  {
    FillNothing(rates[1..], cap);
  }

  lemma LipschitzStep(a: real, b: real, h: real, top: real, fa: real, fb: real, large: real, small: real)
    requires b <= a && h <= top
    requires fa - fb <= Times((large - a) - (small - b), top)
    ensures (Times(a, h) + fa) - (Times(b, h) + fb) <= Times(large - small, top)
  {
    NonNegative(a - b, top - h);
    assert (a - b) * (top - h) == (a - b) * top - (a * h - b * h);
    assert ((large - a) - (small - b)) * top == (large - small) * top - (a - b) * top;
  }

  lemma OptimalStep(a: real, v: real, h: real, ret: real, fv: real, fa: real, gap: real, budget: real)
    requires ret <= fv && fv - fa <= gap && gap == Times((budget - v) - (budget - a), h)
    ensures Times(v, h) + ret <= Times(a, h) + fa
  {
    assert (budget - v) - (budget - a) == a - v;
    assert (a - v) * h == a * h - v * h;
  }

  lemma FeasibleTail(w: seq<real>, n: nat, cap: real, budget: real)
    requires Feasible(w, n, cap, budget) && 0 < n && 0.0 < cap
    ensures 0.0 <= w[0] <= Min(cap, budget) && Feasible(w[1..], n - 1, cap, budget - w[0])
    ensures 0.0 <= budget - Min(cap, budget) <= budget - w[0] <= Capacity(n - 1, cap)
  {
    SumBounds(w[1..], cap);
  }

  lemma {:induction false} SortedOptimal(w: seq<real>, rates: seq<real>, cap: real, budget: real)
    requires Sorted(Descending(), rates) && 0.0 < cap
    requires Feasible(w, |rates|, cap, budget)
    ensures ReturnOf(w, rates) <= Fill(rates, cap, budget)
  {
    hide Fill;
    if rates == [] {
      FillEmpty(cap, budget);
    } else {
      var h, rest, v, tail := rates[0], rates[1..], w[0], w[1..];
      var a := Min(cap, budget);
      FeasibleTail(w, |rates|, cap, budget);
      hide ReturnOf, Feasible, Capacity, SumOf, Times;
      FillHead(rates, cap, budget);
      hide Min;
      SortedOptimal(tail, rest, cap, budget - v);
      FillLipschitz(rest, cap, budget - a, budget - v, h);
      hide Sorted;
      assert w == [v] + tail && rates == [h] + rest;
      ReturnStep(v, tail, h, rest);
      var fv, fa := Fill(rest, cap, budget - v), Fill(rest, cap, budget - a);
      OptimalStep(a, v, h, ReturnOf(tail, rest), fv, fa, Times((budget - v) - (budget - a), h), budget);
    }
  }

  // ----- back to the order the assets came in

  function InsertAt<T>(k: nat, v: T, xs: seq<T>): seq<T>
    requires k <= |xs|
  {
    xs[..k] + [v] + xs[k..]
  }

  lemma {:induction false} InsertPosition(x: real, xs: seq<real>) returns (k: nat)
    ensures k <= |xs| && Insert(Descending(), x, xs) == InsertAt(k, x, xs)
  {
    if xs == [] || Descending()(x, xs[0]) {
      k := 0;
    } else {
      var j := InsertPosition(x, xs[1..]);
      k := j + 1;
      assert xs == [xs[0]] + xs[1..];
    }
  }

  lemma {:induction false} SumInsertAt(k: nat, v: real, w: seq<real>)
    requires k <= |w|
    ensures SumOf(InsertAt(k, v, w)) == v + SumOf(w)
  {
    if k == 0 {
      assert InsertAt(0, v, w)[1..] == w;
    } else {
      SumInsertAt(k - 1, v, w[1..]);
      assert InsertAt(k, v, w)[1..] == InsertAt(k - 1, v, w[1..]);
    }
  }

  lemma {:induction false} ReturnInsertAt(k: nat, v: real, w: seq<real>, x: real, mu: seq<real>)
    requires k <= |w| == |mu|
    ensures ReturnOf(InsertAt(k, v, w), InsertAt(k, x, mu)) == Times(v, x) + ReturnOf(w, mu)
  {
    if k == 0 {
      assert InsertAt(0, v, w)[1..] == w && InsertAt(0, x, mu)[1..] == mu;
    } else {
      ReturnInsertAt(k - 1, v, w[1..], x, mu[1..]);
      assert InsertAt(k, v, w)[1..] == InsertAt(k - 1, v, w[1..]);
      assert InsertAt(k, x, mu)[1..] == InsertAt(k - 1, x, mu[1..]);
    }
  }

  lemma FeasibleInsertAt(k: nat, v: real, w: seq<real>, n: nat, cap: real, budget: real)
    requires Feasible(w, n, cap, budget) && k <= n && 0.0 <= v <= cap
    ensures Feasible(InsertAt(k, v, w), n + 1, cap, v + budget)
  {
    SumInsertAt(k, v, w);
  }

  lemma FeasibleRemoveAt(k: nat, g: seq<real>, n: nat, cap: real, budget: real)
    requires Feasible(g, n + 1, cap, budget) && k <= n
    ensures Feasible(g[..k] + g[k + 1..], n, cap, budget - g[k])
    ensures g == InsertAt(k, g[k], g[..k] + g[k + 1..])
  {
    var h := g[..k] + g[k + 1..];
    assert g == InsertAt(k, g[k], h);
    SumInsertAt(k, g[k], h);
  }

  /** Every book over the assets as given is a book over the sorted ones, worth the same ... */
  lemma {:induction false} ToSorted(w: seq<real>, mu: seq<real>, cap: real, budget: real) returns (g: seq<real>)
    requires Feasible(w, |mu|, cap, budget)
    ensures Feasible(g, |mu|, cap, budget)
    ensures ReturnOf(g, Sort(Descending(), mu)) == ReturnOf(w, mu)
  {
    if mu == [] {
      g := [];
    } else {
      var v, tail, x, rest := w[0], w[1..], mu[0], mu[1..];
      var h := ToSorted(tail, rest, cap, budget - v);
      var k := InsertPosition(x, Sort(Descending(), rest));
      g := InsertAt(k, v, h);
      FeasibleInsertAt(k, v, h, |rest|, cap, budget - v);
      hide Feasible;
      ReturnInsertAt(k, v, h, x, Sort(Descending(), rest));
      assert w == [v] + tail && mu == [x] + rest;
      ReturnStep(v, tail, x, rest);
      hide ReturnOf;
    }
  }

  /** ... and back. */
  lemma {:induction false} FromSorted(g: seq<real>, mu: seq<real>, cap: real, budget: real) returns (w: seq<real>)
    requires Feasible(g, |mu|, cap, budget)
    ensures Feasible(w, |mu|, cap, budget)
    ensures ReturnOf(w, mu) == ReturnOf(g, Sort(Descending(), mu))
  {
    if mu == [] {
      w := [];
    } else {
      var x, rest := mu[0], mu[1..];
      var sorted := Sort(Descending(), rest);
      var k := InsertPosition(x, sorted);
      var v, h := g[k], g[..k] + g[k + 1..];
      FeasibleRemoveAt(k, g, |rest|, cap, budget);
      var tail := FromSorted(h, rest, cap, budget - v);
      w := [v] + tail;
      FeasibleStep(v, tail, |rest|, cap, budget - v);
      hide Feasible;
      ReturnInsertAt(k, v, h, x, sorted);
      assert mu == [x] + rest;
      ReturnStep(v, tail, x, rest);
      hide ReturnOf;
    }
  }

  lemma DescendingOrders()
    ensures TotalPreorder(Descending())
  {
  }

  /** The greedy fill is optimal: no book within the cap earns more than
      MaxAttainableReturn, and some book earns exactly that. */
  lemma GreedyIsOptimal(mu: seq<real>, cap: real)
    requires mu != [] && 0.0 < cap < 1.0 && 1.0 <= cap * |mu| as real
    ensures forall w :: Feasible(w, |mu|, cap, 1.0) ==> ReturnOf(w, mu) <= MaxAttainableReturn(mu, Some(cap))
    ensures exists w :: Feasible(w, |mu|, cap, 1.0) && ReturnOf(w, mu) == MaxAttainableReturn(mu, Some(cap))
  {
    var sorted := Sort(Descending(), mu);
    CapacityIs(|mu|, cap);
    DescendingOrders();
    SortSorted(Descending(), mu);
    forall w | Feasible(w, |mu|, cap, 1.0) ensures ReturnOf(w, mu) <= MaxAttainableReturn(mu, Some(cap)) {
      var g := ToSorted(w, mu, cap, 1.0);
      SortedOptimal(g, sorted, cap, 1.0);
    }
    AllocationFeasible(sorted, cap, 1.0);
    var w := FromSorted(Allocation(|mu|, cap, 1.0), mu, cap, 1.0);
  }

  /** The check on the cap is exact: a fully invested book exists if and only if the cap
      times the number of assets reaches 1. */
  lemma CapFeasibleExactly(n: nat, cap: real)
    ensures 1.0 <= cap * n as real <==> exists w :: Feasible(w, n, cap, 1.0)
  {
    CapacityIs(n, cap);
    if cap <= 0.0 { NonNegative(-cap, n as real); }
    if 1.0 <= cap * n as real {
      var rates := seq(n, _ => 0.0);
      AllocationFeasible(rates, cap, 1.0);
    } else {
      forall w | |w| == n && forall i :: 0 <= i < n ==> 0.0 <= w[i] <= cap ensures SumOf(w) != 1.0 {
        SumBounds(w, cap);
      }
    }
  }

  // ----- without a binding cap

  lemma {:induction false} BestBounds(rates: seq<real>)
    requires rates != []
    ensures forall i :: 0 <= i < |rates| ==> rates[i] <= Best(rates)
    ensures exists i :: 0 <= i < |rates| && rates[i] == Best(rates)
  {
    if |rates| == 1 {
      assert rates[0] == Best(rates);
    } else {
      BestBounds(rates[1..]);
      var k :| 0 <= k < |rates[1..]| && rates[1..][k] == Best(rates[1..]);
      assert rates[k + 1] == Best(rates[1..]);
      if rates[0] > Best(rates[1..]) { assert rates[0] == Best(rates); }
    }
  }

  lemma {:induction false} AtMostTop(w: seq<real>, mu: seq<real>, top: real)
    requires |w| == |mu| && (forall i :: 0 <= i < |w| ==> 0.0 <= w[i] && mu[i] <= top)
    ensures ReturnOf(w, mu) <= SumOf(w) * top
  {
    if w != [] {
      AtMostTop(w[1..], mu[1..], top);
      NonNegative(w[0], top - mu[0]);
      assert w[0] * (top - mu[0]) == w[0] * top - w[0] * mu[0];
      assert SumOf(w) * top == w[0] * top + SumOf(w[1..]) * top;
    }
  }

  function Single(n: nat, k: nat): seq<real> {
    seq(n, i => if i == k then 1.0 else 0.0)
  }

  lemma {:induction false} SingleEarns(mu: seq<real>, k: nat)
    ensures SumOf(Single(|mu|, k)) == (if k < |mu| then 1.0 else 0.0)
    ensures ReturnOf(Single(|mu|, k), mu) == (if k < |mu| then mu[k] else 0.0)
  {
    if mu != [] {
      var w := Single(|mu|, k);
      if k == 0 {
        assert w[1..] == Single(|mu| - 1, |mu|);
        SingleEarns(mu[1..], |mu|);
      } else {
        assert w[1..] == Single(|mu| - 1, k - 1);
        SingleEarns(mu[1..], k - 1);
      }
    }
  }

  /** A cap of 1 or more, or none, leaves the best single asset as the most a long-only,
      fully invested book can earn. */
  lemma UncappedIsOptimal(mu: seq<real>, cap: real)
    requires mu != [] && 1.0 <= cap
    ensures MaxAttainableReturn(mu, None) == MaxAttainableReturn(mu, Some(cap))
    ensures forall w :: Feasible(w, |mu|, cap, 1.0) ==> ReturnOf(w, mu) <= MaxAttainableReturn(mu, None)
    ensures exists w :: Feasible(w, |mu|, cap, 1.0) && ReturnOf(w, mu) == MaxAttainableReturn(mu, None)
  {
    BestBounds(mu);
    forall w | Feasible(w, |mu|, cap, 1.0) ensures ReturnOf(w, mu) <= Best(mu) {
      AtMostTop(w, mu, Best(mu));
    }
    var k :| 0 <= k < |mu| && mu[k] == Best(mu);
    SingleEarns(mu, k);
    assert Feasible(Single(|mu|, k), |mu|, cap, 1.0);
  }
}
