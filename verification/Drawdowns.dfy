/** Maximum drawdown (src/backtest/metrics.py). */
module Drawdowns {

  /** The highest value so far. */
  function Peak(curve: seq<real>): real
    requires curve != []
  {
    if |curve| == 1 then curve[0]
    else
      var before, last := Peak(curve[..|curve| - 1]), curve[|curve| - 1];
      if last > before then last else before
  }

  /** The decline of the last value from the peak so far, as a fraction. */
  function DrawdownNow(curve: seq<real>): real
    requires curve != []
  {
    var peak := Peak(curve);
    if peak > 0.0 then (peak - curve[|curve| - 1]) / peak else 0.0
  }

  /** The drawdown at point i. */
  function DrawdownAt(curve: seq<real>, i: nat): real
    requires i < |curve|
  {
    DrawdownNow(curve[..i + 1])
  }

  /** The largest drawdown seen at any point. */
  function MaxDrawdown(curve: seq<real>): real {
    if curve == [] then 0.0
    else
      var before := MaxDrawdown(curve[..|curve| - 1]);
      if DrawdownNow(curve) > before then DrawdownNow(curve) else before
  }

  /** The single pass. */
  method MeasureDrawdown(curve: seq<real>) returns (worst: real)
    ensures worst == MaxDrawdown(curve)
  {
    if curve == [] {
      return 0.0;
    }
    var peak := curve[0];
    worst := 0.0;
    for i := 0 to |curve|
      invariant peak == if i == 0 then curve[0] else Peak(curve[..i])
      invariant worst == MaxDrawdown(curve[..i])
    {
      assert curve[..i + 1][..i] == curve[..i];
      if curve[i] > peak {
        peak := curve[i];
      }
      assert peak == Peak(curve[..i + 1]);
      if peak > 0.0 {
        var decline := (peak - curve[i]) / peak;
        if decline > worst {
          worst := decline;
        }
      }
      MaxNonNegative(curve[..i]);
    }
    assert curve[..|curve|] == curve;
  }

  lemma {:induction false} MaxNonNegative(curve: seq<real>)
    ensures 0.0 <= MaxDrawdown(curve)
  {
    if curve != [] { MaxNonNegative(curve[..|curve| - 1]); }
  }

  /** The maximum is over the drawdowns at every point, and one of them reaches it. */
  lemma {:induction false} MaxIsLargest(curve: seq<real>)
    ensures forall i :: 0 <= i < |curve| ==> DrawdownAt(curve, i) <= MaxDrawdown(curve)
    ensures curve != [] ==> exists i :: 0 <= i < |curve| && DrawdownAt(curve, i) == MaxDrawdown(curve)
  {
    if curve != [] {
      var n := |curve| - 1;
      var front := curve[..n];
      MaxIsLargest(front);
      assert curve[..n + 1] == curve;
      assert DrawdownAt(curve, n) == DrawdownNow(curve);
      forall i | 0 <= i < |front| ensures DrawdownAt(curve, i) == DrawdownAt(front, i) {
        assert curve[..i + 1] == front[..i + 1];
      }
      if DrawdownNow(curve) > MaxDrawdown(front) {
        assert DrawdownAt(curve, n) == MaxDrawdown(curve);
      } else if front == [] {
        assert DrawdownAt(curve, 0) == MaxDrawdown(curve);
      } else {
        var i :| 0 <= i < |front| && DrawdownAt(front, i) == MaxDrawdown(front);
        assert DrawdownAt(curve, i) == MaxDrawdown(curve);
      }
    }
  }

  lemma {:induction false} PeakIsMax(curve: seq<real>)
    requires curve != []
    ensures forall i :: 0 <= i < |curve| ==> curve[i] <= Peak(curve)
    ensures exists i :: 0 <= i < |curve| && curve[i] == Peak(curve)
  {
    if |curve| == 1 {
      assert curve[0] == Peak(curve);
    } else {
      var front := curve[..|curve| - 1];
      PeakIsMax(front);
      var k :| 0 <= k < |front| && front[k] == Peak(front);
      forall i | 0 <= i < |curve| ensures curve[i] <= Peak(curve) {
        if i < |front| { assert curve[i] == front[i]; }
      }
      if curve[|curve| - 1] > Peak(front) { assert curve[|curve| - 1] == Peak(curve); } else { assert curve[k] == Peak(curve); }
    }
  }

  ghost predicate Positive(curve: seq<real>) {
    forall i :: 0 <= i < |curve| ==> 0.0 < curve[i]
  }

  /** The decline from point i to point j. */
  function Decline(curve: seq<real>, i: nat, j: nat): real
    requires i <= j < |curve| && curve[i] > 0.0
  {
    (curve[i] - curve[j]) / curve[i]
  }

  lemma CrossDivide(n1: real, d1: real, n2: real, d2: real)
    requires 0.0 < d1 && 0.0 < d2 && n1 * d2 <= n2 * d1
    ensures n1 / d1 <= n2 / d2
  {
    var q1, q2 := n1 / d1, n2 / d2;
    assert q1 * d1 == n1 && q2 * d2 == n2;
    if q2 < q1 {
      Regroup(q1, d1, d2, n1);
      Regroup(q2, d2, d1, n2);
      Larger(q1, q2, d1 * d2);
    }
  }

  lemma Regroup(q: real, d: real, e: real, n: real)
    requires q * d == n
    ensures n * e == q * (d * e)
  {
    assert (q * d) * e == q * (d * e);
  }

  lemma Larger(x: real, y: real, d: real)
    requires y < x && 0.0 < d
    ensures y * d < x * d
  {
  }

  lemma DeclineOrder(a: real, peak: real, last: real)
    requires 0.0 < a <= peak && 0.0 < last
    ensures (a - last) / a <= (peak - last) / peak
  {
    assert (a - last) * peak == a * peak - last * peak;
    assert (peak - last) * a == a * peak - last * a;
    assert last * a <= last * peak;
    CrossDivide(a - last, a, peak - last, peak);
  }

  /** At each point the running drawdown is the worst decline ending there. */
  lemma DrawdownNowIsWorst(curve: seq<real>, n: nat)
    requires |curve| == n + 1 && Positive(curve)
    ensures forall i :: 0 <= i < |curve| ==> Decline(curve, i, n) <= DrawdownNow(curve)
    ensures exists i :: 0 <= i < |curve| && Decline(curve, i, n) == DrawdownNow(curve)
  {
    PeakIsMax(curve);
    var k :| 0 <= k < |curve| && curve[k] == Peak(curve);
    forall i | 0 <= i < |curve| ensures Decline(curve, i, n) <= DrawdownNow(curve) {
      DeclineOrder(curve[i], Peak(curve), curve[n]);
    }
    assert Decline(curve, k, n) == DrawdownNow(curve);
  }

  /** The single pass finds the worst decline over all pairs: no later point falls further
      below an earlier one, and some pair falls exactly that far. */
  lemma {:induction false} MaxDrawdownIsPairwise(curve: seq<real>)
    requires Positive(curve)
    ensures forall i, j :: 0 <= i <= j < |curve| ==> Decline(curve, i, j) <= MaxDrawdown(curve)
    ensures curve != [] ==> exists i, j :: 0 <= i <= j < |curve| && Decline(curve, i, j) == MaxDrawdown(curve)
  {
    if curve != [] {
      var n := |curve| - 1;
      var front := curve[..n];
      assert Positive(front);
      MaxDrawdownIsPairwise(front);
      DrawdownNowIsWorst(curve, n);
      forall i, j | 0 <= i <= j < |curve| ensures Decline(curve, i, j) <= MaxDrawdown(curve) {
        if j < n { assert Decline(curve, i, j) == Decline(front, i, j); }
      }
      if DrawdownNow(curve) > MaxDrawdown(front) {
        var i :| 0 <= i < |curve| && Decline(curve, i, n) == DrawdownNow(curve);
        assert Decline(curve, i, n) == MaxDrawdown(curve);
      } else if front == [] {
        assert Decline(curve, 0, 0) == 0.0 == MaxDrawdown(curve);
      } else {
        var i, j :| 0 <= i <= j < |front| && Decline(front, i, j) == MaxDrawdown(front);
        assert Decline(curve, i, j) == MaxDrawdown(curve);
      }
    }
  }
}
