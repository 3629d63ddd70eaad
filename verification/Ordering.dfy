/** Python's ordering of strings, the order in which `sorted(...)` walks a dictionary
    or a set of symbols, and its stable `sorted(..., key=...)`. */
module Ordering {

  /** Lexicographic order on strings, as Python's `<=` compares them. */
  predicate Leq(a: string, b: string) {
    a == [] || (b != [] && (a[0] < b[0] || (a[0] == b[0] && Leq(a[1..], b[1..]))))
  }

  lemma {:induction false} LeqTotal(a: string, b: string)
    ensures Leq(a, b) || Leq(b, a)
  {
    if a != [] && b != [] && a[0] == b[0] {
      LeqTotal(a[1..], b[1..]);
    }
  }

  lemma {:induction false} LeqAntisymmetric(a: string, b: string)
    requires Leq(a, b) && Leq(b, a)
    ensures a == b
  {
    if a != [] && b != [] {
      LeqAntisymmetric(a[1..], b[1..]);
      assert a == [a[0]] + a[1..] && b == [b[0]] + b[1..];
    }
  }

  lemma {:induction false} LeqTransitive(a: string, b: string, c: string)
    requires Leq(a, b) && Leq(b, c)
    ensures Leq(a, c)
  {
    if a != [] && a[0] == b[0] && b[0] == c[0] {
      LeqTransitive(a[1..], b[1..], c[1..]);
    }
  }

  ghost predicate IsLeast(m: string, keys: set<string>) {
    m in keys && forall k :: k in keys ==> Leq(m, k)
  }

  lemma LeastUnique(keys: set<string>)
    ensures forall x, y | x in keys && y in keys && (forall k :: k in keys ==> Leq(x, k)) && (forall k :: k in keys ==> Leq(y, k)) :: x == y
  {
    forall x, y | x in keys && y in keys && (forall k :: k in keys ==> Leq(x, k)) && (forall k :: k in keys ==> Leq(y, k))
      ensures x == y
    {
      LeqAntisymmetric(x, y);
    }
  }

  lemma {:induction false} LeastExists(keys: set<string>)
    requires keys != {}
    ensures exists m :: m in keys && forall k :: k in keys ==> Leq(m, k)
  {
    SomeLeast(keys);
    var w :| IsLeast(w, keys);
  }

  lemma {:induction false} SomeLeast(keys: set<string>)
    requires keys != {}
    ensures exists m :: IsLeast(m, keys)
  {
    var x :| x in keys;
    if keys == {x} {
      LeqTotal(x, x);
      assert IsLeast(x, keys);
    } else {
      var rest := keys - {x};
      SomeLeast(rest);
      var m :| IsLeast(m, rest);
      LeqTotal(x, m);
      LeqTotal(x, x);
      if Leq(m, x) {
        assert IsLeast(m, keys);
      } else {
        forall k | k in keys ensures Leq(x, k) {
          if k != x { LeqTransitive(x, m, k); }
        }
        assert IsLeast(x, keys);
      }
    }
  }

  /** The first key a sorted traversal meets. */
  function Least(keys: set<string>): (m: string)
    requires keys != {}
    ensures m in keys && forall k :: k in keys ==> Leq(m, k)
  {
    LeastExists(keys);
    LeastUnique(keys);
    var m :| m in keys && forall k :: k in keys ==> Leq(m, k);
    m
  }

  /** `sorted(keys)`. */
  function SortedKeys(keys: set<string>): (ks: seq<string>)
    ensures forall k :: k in ks <==> k in keys
    ensures forall i, j :: 0 <= i < j < |ks| ==> ks[i] != ks[j]
  {
    if keys == {} then []
    else
      var m := Least(keys);
      [m] + SortedKeys(keys - {m})
  }

  /** The keys met by the first `n` steps of a traversal. */
  function Seen(ks: seq<string>, n: nat): (s: set<string>)
    requires n <= |ks|
  {
    set k | k in ks[..n]
  }

  lemma SeenStep(ks: seq<string>, n: nat)
    requires n < |ks|
    requires forall i, j :: 0 <= i < j < |ks| ==> ks[i] != ks[j]
    ensures Seen(ks, n + 1) == Seen(ks, n) + {ks[n]}
    ensures ks[n] !in Seen(ks, n)
  {
    assert ks[..n + 1] == ks[..n] + [ks[n]];
  }

  lemma SeenEnds(keys: set<string>)
    ensures var ks := SortedKeys(keys); Seen(ks, 0) == {} && Seen(ks, |ks|) == keys
  {
    var ks := SortedKeys(keys);
    assert ks[..|ks|] == ks;
  }
}

/** Python's stable `sorted`, for any total preorder. */
module Sorting {

  ghost predicate TotalPreorder<T(!new)>(leq: (T, T) -> bool) {
    && (forall x, y :: leq(x, y) || leq(y, x))
    && (forall x, y, z :: leq(x, y) && leq(y, z) ==> leq(x, z))
  }

  ghost predicate Sorted<T>(leq: (T, T) -> bool, xs: seq<T>) {
    forall i, j :: 0 <= i < j < |xs| ==> leq(xs[i], xs[j])
  }

  /** Places `x` before the first element that is not smaller. */
  function Insert<T>(leq: (T, T) -> bool, x: T, xs: seq<T>): (ys: seq<T>)
    ensures |ys| == |xs| + 1
  {
    if xs == [] || leq(x, xs[0]) then [x] + xs
    else [xs[0]] + Insert(leq, x, xs[1..])
  }

  function Sort<T>(leq: (T, T) -> bool, xs: seq<T>): (ys: seq<T>)
    ensures |ys| == |xs|
  {
    if xs == [] then [] else Insert(leq, xs[0], Sort(leq, xs[1..]))
  }

  lemma {:induction false} InsertElements<T>(leq: (T, T) -> bool, x: T, xs: seq<T>)
    ensures multiset(Insert(leq, x, xs)) == multiset(xs) + multiset{x}
  {
    if xs == [] || leq(x, xs[0]) {
    } else {
      InsertElements(leq, x, xs[1..]);
      assert xs == [xs[0]] + xs[1..];
    }
  }

  /** Sorting rearranges and loses nothing. */
  lemma {:induction false} SortElements<T>(leq: (T, T) -> bool, xs: seq<T>)
    ensures multiset(Sort(leq, xs)) == multiset(xs)
  {
    if xs != [] {
      SortElements(leq, xs[1..]);
      InsertElements(leq, xs[0], Sort(leq, xs[1..]));
      assert xs == [xs[0]] + xs[1..];
    }
  }

  lemma SortMembers<T(!new)>(leq: (T, T) -> bool, xs: seq<T>)
    ensures forall x :: x in Sort(leq, xs) <==> x in xs
  {
    SortElements(leq, xs);
    forall x ensures x in Sort(leq, xs) <==> x in xs {
      assert x in multiset(Sort(leq, xs)) <==> x in multiset(xs);
    }
  }

  lemma {:induction false} InsertSorted<T(!new)>(leq: (T, T) -> bool, x: T, xs: seq<T>)
    requires TotalPreorder(leq) && Sorted(leq, xs)
    ensures Sorted(leq, Insert(leq, x, xs))
  {
    if xs == [] || leq(x, xs[0]) {
    } else {
      var tail := Insert(leq, x, xs[1..]);
      InsertSorted(leq, x, xs[1..]);
      InsertElements(leq, x, xs[1..]);
      forall j | 0 <= j < |tail| ensures leq(xs[0], tail[j]) {
        assert tail[j] in multiset(tail);
        if tail[j] != x { assert tail[j] in xs[1..]; }
      }
    }
  }

  lemma {:induction false} SortSorted<T(!new)>(leq: (T, T) -> bool, xs: seq<T>)
    requires TotalPreorder(leq)
    ensures Sorted(leq, Sort(leq, xs))
  {
    if xs != [] {
      SortSorted(leq, xs[1..]);
      InsertSorted(leq, xs[0], Sort(leq, xs[1..]));
    }
  }

  /** What is sorted already stays as it is. */
  lemma {:induction false} SortOfSorted<T>(leq: (T, T) -> bool, xs: seq<T>)
    requires Sorted(leq, xs)
    ensures Sort(leq, xs) == xs
  {
    if xs != [] {
      SortOfSorted(leq, xs[1..]);
      assert xs == [xs[0]] + xs[1..];
    }
  }

  /** A list in order is determined by its elements, if no two of them are level. */
  lemma {:induction false} SortedUnique<T(!new)>(leq: (T, T) -> bool, xs: seq<T>, ys: seq<T>)
    requires Sorted(leq, xs) && Sorted(leq, ys) && multiset(xs) == multiset(ys)
    requires forall x, y :: x in xs && y in xs && leq(x, y) && leq(y, x) ==> x == y
    ensures xs == ys
  {
    assert |xs| == |multiset(xs)| == |multiset(ys)| == |ys|;
    if xs != [] {
      FirstIsLeast(leq, xs, ys);
      FirstIsLeast(leq, ys, xs);
      assert xs == [xs[0]] + xs[1..] && ys == [ys[0]] + ys[1..];
      hide Sorted;
      assert multiset(xs[1..]) == multiset(xs) - multiset{xs[0]};
      assert multiset(ys[1..]) == multiset(ys) - multiset{ys[0]};
      SortedTail(leq, xs);
      SortedTail(leq, ys);
      SortedUnique(leq, xs[1..], ys[1..]);
    }
  }

  lemma SortedTail<T>(leq: (T, T) -> bool, xs: seq<T>)
    requires xs != [] && Sorted(leq, xs)
    ensures Sorted(leq, xs[1..])
  {
  }

  lemma FirstIsLeast<T(!new)>(leq: (T, T) -> bool, xs: seq<T>, ys: seq<T>)
    requires xs != [] && ys != [] && Sorted(leq, xs) && multiset(xs) == multiset(ys)
    ensures ys[0] in xs && (ys[0] == xs[0] || leq(xs[0], ys[0]))
  {
    assert ys[0] in multiset(xs);
    var j :| 0 <= j < |xs| && xs[j] == ys[0];
  }

  function Filter<T>(keep: T -> bool, xs: seq<T>): (ys: seq<T>)
    ensures |ys| <= |xs|
  {
    if xs == [] then [] else (if keep(xs[0]) then [xs[0]] else []) + Filter(keep, xs[1..])
  }

  lemma {:induction false} FilterMembers<T(!new)>(keep: T -> bool, xs: seq<T>)
    ensures forall x :: x in Filter(keep, xs) <==> x in xs && keep(x)
  {
    if xs != [] {
      FilterMembers(keep, xs[1..]);
      assert xs == [xs[0]] + xs[1..];
    }
  }

  lemma {:induction false} FilterNone<T>(keep: T -> bool, xs: seq<T>)
    requires forall i :: 0 <= i < |xs| ==> !keep(xs[i])
    ensures Filter(keep, xs) == []
  {
    if xs != [] { FilterNone(keep, xs[1..]); }
  }

  lemma FilterCons<T>(keep: T -> bool, x: T, xs: seq<T>)
    ensures Filter(keep, [x] + xs) == if keep(x) then [x] + Filter(keep, xs) else Filter(keep, xs)
  {
    assert ([x] + xs)[1..] == xs;
  }

  lemma ConcatAssociates<T>(xs: seq<T>, ys: seq<T>, zs: seq<T>)
    ensures (xs + ys) + zs == xs + (ys + zs)
  {
  }

  lemma {:induction false} FilterConcat<T>(keep: T -> bool, xs: seq<T>, ys: seq<T>)
    ensures Filter(keep, xs + ys) == Filter(keep, xs) + Filter(keep, ys)
  {
    if xs == [] {
      assert xs + ys == ys;
      assert [] + Filter(keep, ys) == Filter(keep, ys);
    } else {
      var x, tail := xs[0], xs[1..];
      assert xs == [x] + tail;
      FilterConcat(keep, tail, ys);
      FilterConsConcat(keep, x, tail, ys);
    }
  }

  lemma FilterConsConcat<T>(keep: T -> bool, x: T, tail: seq<T>, ys: seq<T>)
    requires Filter(keep, tail + ys) == Filter(keep, tail) + Filter(keep, ys)
    ensures Filter(keep, ([x] + tail) + ys) == Filter(keep, [x] + tail) + Filter(keep, ys)
  {
    hide Filter;
    FilterCons(keep, x, tail);
    FilterCons(keep, x, tail + ys);
    ConcatAssociates([x], tail, ys);
    ConcatAssociates([x], Filter(keep, tail), Filter(keep, ys));
  }

  lemma FilterSnoc<T>(keep: T -> bool, xs: seq<T>, x: T)
    ensures Filter(keep, xs + [x]) == if keep(x) then Filter(keep, xs) + [x] else Filter(keep, xs)
  {
    FilterConcat(keep, xs, [x]);
    FilterCons(keep, x, []);
    assert [x] + [] == [x];
    assert Filter(keep, xs) + [] == Filter(keep, xs);
  }

  lemma {:induction false} FilterSorted<T(!new)>(leq: (T, T) -> bool, keep: T -> bool, xs: seq<T>)
    requires Sorted(leq, xs)
    ensures Sorted(leq, Filter(keep, xs))
  {
    if xs != [] {
      var kept := Filter(keep, xs[1..]);
      FilterSorted(leq, keep, xs[1..]);
      FilterMembers(keep, xs[1..]);
      forall j | 0 <= j < |kept| ensures leq(xs[0], kept[j]) {
        assert kept[j] in kept;
      }
    }
  }

  lemma InsertLater<T(!new)>(leq: (T, T) -> bool, x: T, first: T, rest: seq<T>)
    requires !leq(x, first)
    ensures Insert(leq, x, [first] + rest) == [first] + Insert(leq, x, rest)
  {
    assert ([first] + rest)[1..] == rest;
  }

  lemma {:induction false} FilterInsert<T(!new)>(leq: (T, T) -> bool, keep: T -> bool, x: T, xs: seq<T>)
    requires TotalPreorder(leq) && Sorted(leq, xs)
    ensures Filter(keep, Insert(leq, x, xs)) ==
            if keep(x) then Insert(leq, x, Filter(keep, xs)) else Filter(keep, xs)
  {
    if xs == [] || leq(x, xs[0]) {
      FilterCons(keep, x, xs);
      FilterMembers(keep, xs);
      var kept := Filter(keep, xs);
      if kept != [] {
        assert kept[0] in xs;
        var k :| 0 <= k < |xs| && xs[k] == kept[0];
        assert leq(x, xs[k]);
      }
    } else {
      var first, rest := xs[0], xs[1..];
      FilterInsert(leq, keep, x, rest);
      InsertLater(leq, x, first, rest);
      InsertLater(leq, x, first, Filter(keep, rest));
      hide Filter, Insert, Sorted, TotalPreorder;
      FilterCons(keep, first, rest);
      FilterCons(keep, first, Insert(leq, x, rest));
      assert xs == [first] + rest;
    }
  }

  /** A stable sort commutes with dropping elements: what is dropped leaves no trace in
      the order of the rest, ties included. */
  lemma {:induction false} FilterSort<T(!new)>(leq: (T, T) -> bool, keep: T -> bool, xs: seq<T>)
    requires TotalPreorder(leq)
    ensures Filter(keep, Sort(leq, xs)) == Sort(leq, Filter(keep, xs))
  {
    if xs != [] {
      FilterSort(leq, keep, xs[1..]);
      SortSorted(leq, xs[1..]);
      FilterInsert(leq, keep, xs[0], Sort(leq, xs[1..]));
      FilterCons(keep, xs[0], xs[1..]);
      assert xs == [xs[0]] + xs[1..];
      assert ([xs[0]] + Filter(keep, xs[1..]))[1..] == Filter(keep, xs[1..]);
    }
  }
}
