/** Point-in-time data: what was known at an instant (src/data/pit.py). */
module PointInTime {
  import opened Options
  import opened Sorting

  /** Ticks since the earliest representable datetime. */
  type Instant = nat

  /** A figure for a period, and when it came out. */
  datatype Vintage = Vintage(periodEnd: Instant, published: Instant, value: real)

  datatype PointInTimeError = PublishedBeforePeriodEnd

  function NewVintage(periodEnd: Instant, published: Instant, value: real): Result<Vintage, PointInTimeError> {
    if published < periodEnd then Failure(PublishedBeforePeriodEnd) else Success(Vintage(periodEnd, published, value))
  }

  function ByPeriod(): (Vintage, Vintage) -> bool {
    (a: Vintage, b: Vintage) => a.periodEnd < b.periodEnd || (a.periodEnd == b.periodEnd && a.published <= b.published)
  }

  lemma ByPeriodOrders()
    ensures TotalPreorder(ByPeriod())
  {
  }

  /** A series, with the revisions of a period side by side in the order they came out. */
  function NewSeries(vintages: seq<Vintage>): seq<Vintage> {
    Sort(ByPeriod(), vintages)
  }

  function VisibleBy(t: Instant): Vintage -> bool {
    (v: Vintage) => v.published <= t
  }

  function OfPeriod(p: Instant, t: Instant): Vintage -> bool {
    (v: Vintage) => v.periodEnd == p && v.published <= t
  }

  function LatestForPeriod(series: seq<Vintage>, p: Instant, t: Instant): Option<Vintage> {
    var candidates := Filter(OfPeriod(p, t), series);
    if candidates == [] then None else Some(candidates[|candidates| - 1])
  }

  // ----- visible_at

  function LeastPeriod(periods: set<Instant>): (p: Instant)
    requires periods != {}
    ensures p in periods && forall q :: q in periods ==> p <= q
  {
    LeastExists(periods);
    var p :| p in periods && forall q :: q in periods ==> p <= q;
    p
  }

  ghost predicate IsFirst(p: Instant, periods: set<Instant>) {
    p in periods && forall q :: q in periods ==> p <= q
  }

  lemma LeastExists(periods: set<Instant>)
    requires periods != {}
    ensures exists p :: p in periods && forall q :: q in periods ==> p <= q
  {
    var p := FirstPeriod(periods);
    assert IsFirst(p, periods);
  }

  lemma {:induction false} FirstPeriod(periods: set<Instant>) returns (p: Instant)
    requires periods != {}
    ensures IsFirst(p, periods)
  {
    var x :| x in periods;
    var rest := periods - {x};
    p := x;
    if rest != {} {
      var q := FirstPeriod(rest);
      if q < x { p := q; }
    }
    forall k | k in periods ensures p <= k { if k != x { assert k in rest; } }
  }

  function SortedPeriods(periods: set<Instant>): (ps: seq<Instant>)
    ensures forall p :: p in ps <==> p in periods
    ensures forall i, j :: 0 <= i < j < |ps| ==> ps[i] < ps[j]
  {
    if periods == {} then []
    else
      var p := LeastPeriod(periods);
      [p] + SortedPeriods(periods - {p})
  }

  /** The dictionary the loop fills: a later visible vintage replaces an earlier one. */
  function LatestByPeriod(series: seq<Vintage>, t: Instant): map<Instant, Vintage> {
    if series == [] then map[]
    else
      var before, last := LatestByPeriod(series[..|series| - 1], t), series[|series| - 1];
      if last.published <= t then before[last.periodEnd := last] else before
  }

  function InOrder(periods: seq<Instant>, latest: map<Instant, Vintage>): (vs: seq<Vintage>)
    requires forall p :: p in periods ==> p in latest
    ensures |vs| == |periods| && forall i :: 0 <= i < |vs| ==> (var p := periods[i]; p in latest && vs[i] == latest[p])
  {
    if periods == [] then []
    else
      var p := periods[0];
      assert p in periods;
      [latest[p]] + InOrder(periods[1..], latest)
  }

  function VisibleAt(series: seq<Vintage>, t: Instant): seq<Vintage> {
    var latest := LatestByPeriod(series, t);
    InOrder(SortedPeriods(latest.Keys), latest)
  }

  method CollectVisible(series: seq<Vintage>, t: Instant) returns (visible: seq<Vintage>)
    ensures visible == VisibleAt(series, t)
  {
    var latest: map<Instant, Vintage> := map[];
    assert series[..0] == [];
    for i := 0 to |series|
      invariant latest == LatestByPeriod(series[..i], t)
    {
      assert series[..i + 1][..i] == series[..i];
      if series[i].published <= t {
        latest := latest[series[i].periodEnd := series[i]];
      }
    }
    assert series[..|series|] == series;
    visible := InOrder(SortedPeriods(latest.Keys), latest);
  }

  /** The answer of the newest period with one. */
  function AsOf(series: seq<Vintage>, t: Instant): Option<Vintage> {
    var visible := VisibleAt(series, t);
    if visible == [] then None else Some(visible[|visible| - 1])
  }

  // ----- what the answers are

  /** The loop's dictionary holds, for each period, what a direct lookup finds. */
  lemma {:induction false} LatestAgrees(series: seq<Vintage>, p: Instant, t: Instant)
    ensures LatestForPeriod(series, p, t) == if p in LatestByPeriod(series, t) then Some(LatestByPeriod(series, t)[p]) else None
  {
    if series != [] {
      var front, last := series[..|series| - 1], series[|series| - 1];
      LatestAgrees(front, p, t);
      assert series == front + [last];
      FilterSnoc(OfPeriod(p, t), front, last);
    }
  }

  /** `v` is the newest revision of its period published by `t`. */
  ghost predicate IsLatestRevision(vintages: seq<Vintage>, v: Vintage, t: Instant) {
    && v in vintages && v.published <= t
    && forall u :: u in vintages && u.periodEnd == v.periodEnd && u.published <= t ==> u.published <= v.published
  }

  lemma LatestForPeriodIs(vintages: seq<Vintage>, p: Instant, t: Instant)
    ensures var r := LatestForPeriod(NewSeries(vintages), p, t);
      && (r.Some? ==> r.value.periodEnd == p && IsLatestRevision(vintages, r.value, t))
      && (r.None? ==> forall u :: u in vintages && u.periodEnd == p ==> t < u.published)
  {
    var series := NewSeries(vintages);
    var keep := OfPeriod(p, t);
    var candidates := Filter(keep, series);
    ByPeriodOrders();
    SortMembers(ByPeriod(), vintages);
    SortSorted(ByPeriod(), vintages);
    FilterMembers(keep, series);
    FilterSorted(ByPeriod(), keep, series);
    if candidates != [] {
      var v := candidates[|candidates| - 1];
      assert v in candidates;
      forall u | u in vintages && u.periodEnd == p && u.published <= t ensures u.published <= v.published {
        assert u in candidates;
        var i :| 0 <= i < |candidates| && candidates[i] == u;
        if i < |candidates| - 1 { assert ByPeriod()(candidates[i], v); }
      }
    } else {
      forall u | u in vintages && u.periodEnd == p ensures t < u.published {
        assert u in series && u !in candidates;
      }
    }
  }

  /** What is visible at an instant is exactly the latest revision of each period published
      by then, one entry a period, in period order, and each agrees with the lookup of
      its period. */
  lemma VisibleAtExact(vintages: seq<Vintage>, t: Instant)
    ensures var visible := VisibleAt(NewSeries(vintages), t);
      && (forall i, j :: 0 <= i < j < |visible| ==> visible[i].periodEnd < visible[j].periodEnd)
      && (forall v :: v in visible ==>
            IsLatestRevision(vintages, v, t) && LatestForPeriod(NewSeries(vintages), v.periodEnd, t) == Some(v))
      && (forall u :: u in vintages && u.published <= t ==> exists v :: v in visible && v.periodEnd == u.periodEnd)
  {
    hide VisibleAt, NewSeries, LatestByPeriod, InOrder, LatestForPeriod, IsLatestRevision;
    var visible := VisibleAt(NewSeries(vintages), t);
    forall i, j | 0 <= i < j < |visible| ensures visible[i].periodEnd < visible[j].periodEnd {
      VisibleEntry(vintages, t, i);
      VisibleEntry(vintages, t, j);
    }
    forall v | v in visible ensures IsLatestRevision(vintages, v, t) && LatestForPeriod(NewSeries(vintages), v.periodEnd, t) == Some(v) {
      var i :| 0 <= i < |visible| && visible[i] == v;
      VisibleEntry(vintages, t, i);
    }
    forall u | u in vintages && u.published <= t ensures exists v :: v in visible && v.periodEnd == u.periodEnd {
      var i := PeriodEntry(vintages, u, t);
      assert visible[i] in visible;
    }
  }

  lemma VisibleEntry(vintages: seq<Vintage>, t: Instant, i: nat)
    requires i < |VisibleAt(NewSeries(vintages), t)|
    ensures var series := NewSeries(vintages);
      var v, periods := VisibleAt(series, t)[i], SortedPeriods(LatestByPeriod(series, t).Keys);
      && i < |periods| && v.periodEnd == periods[i]
      && LatestForPeriod(series, v.periodEnd, t) == Some(v) && IsLatestRevision(vintages, v, t)
  {
    hide NewSeries, LatestByPeriod, LatestForPeriod, IsLatestRevision;
    var periods := SortedPeriods(LatestByPeriod(NewSeries(vintages), t).Keys);
    var p := periods[i];
    LatestAgrees(NewSeries(vintages), p, t);
    LatestForPeriodIs(vintages, p, t);
  }

  lemma PeriodEntry(vintages: seq<Vintage>, u: Vintage, t: Instant) returns (i: nat)
    requires u in vintages && u.published <= t
    ensures i < |VisibleAt(NewSeries(vintages), t)| && VisibleAt(NewSeries(vintages), t)[i].periodEnd == u.periodEnd
  {
    hide NewSeries, LatestByPeriod, LatestForPeriod, IsLatestRevision;
    PeriodIsVisible(vintages, u, t);
    var periods := SortedPeriods(LatestByPeriod(NewSeries(vintages), t).Keys);
    var p := u.periodEnd;
    assert p in periods;
    i :| 0 <= i < |periods| && periods[i] == p;
    VisibleEntry(vintages, t, i);
  }

  lemma PeriodIsVisible(vintages: seq<Vintage>, u: Vintage, t: Instant)
    requires u in vintages && u.published <= t
    ensures u.periodEnd in LatestByPeriod(NewSeries(vintages), t)
  {
    hide NewSeries, LatestByPeriod, LatestForPeriod;
    LatestAgrees(NewSeries(vintages), u.periodEnd, t);
    LatestForPeriodIs(vintages, u.periodEnd, t);
  }

  // ----- the future does not leak

  lemma {:induction false} LatestIgnoresInvisible(series: seq<Vintage>, t: Instant)
    ensures LatestByPeriod(series, t) == LatestByPeriod(Filter(VisibleBy(t), series), t)
  {
    if series != [] {
      var front, last := series[..|series| - 1], series[|series| - 1];
      LatestIgnoresInvisible(front, t);
      assert series == front + [last];
      FilterSnoc(VisibleBy(t), front, last);
      LatestSnoc(front, last, t);
      LatestSnoc(Filter(VisibleBy(t), front), last, t);
    }
  }

  lemma LatestSnoc(front: seq<Vintage>, last: Vintage, t: Instant)
    ensures LatestByPeriod(front + [last], t)
         == if last.published <= t then LatestByPeriod(front, t)[last.periodEnd := last] else LatestByPeriod(front, t)
  {
    assert (front + [last])[..|front|] == front;
  }

  /** Non-interference: two histories that agree on what was published by `t`, in the same
      order, answer every question at `t` alike, whatever else either of them holds and
      wherever in the input it stands. */
  lemma FutureDoesNotLeak(xs: seq<Vintage>, ys: seq<Vintage>, t: Instant)
    requires Filter(VisibleBy(t), xs) == Filter(VisibleBy(t), ys)
    ensures VisibleAt(NewSeries(xs), t) == VisibleAt(NewSeries(ys), t)
    ensures AsOf(NewSeries(xs), t) == AsOf(NewSeries(ys), t)
    ensures forall p :: LatestForPeriod(NewSeries(xs), p, t) == LatestForPeriod(NewSeries(ys), p, t)
  {
    ByPeriodOrders();
    FilterSort(ByPeriod(), VisibleBy(t), xs);
    FilterSort(ByPeriod(), VisibleBy(t), ys);
    LatestIgnoresInvisible(NewSeries(xs), t);
    LatestIgnoresInvisible(NewSeries(ys), t);
    forall p ensures LatestForPeriod(NewSeries(xs), p, t) == LatestForPeriod(NewSeries(ys), p, t) {
      LatestAgrees(NewSeries(xs), p, t);
      LatestAgrees(NewSeries(ys), p, t);
    }
  }

  lemma LatestIsPublished(vintages: seq<Vintage>, v: Vintage, t: Instant)
    requires IsLatestRevision(vintages, v, t)
    ensures v in vintages && v.published <= t
  {
  }

  /** The answer ranks by period: it is the newest period with anything published by `t`. */
  lemma AsOfIsNewestPeriod(vintages: seq<Vintage>, t: Instant)
    ensures var r := AsOf(NewSeries(vintages), t);
      && (r.None? <==> forall u :: u in vintages ==> t < u.published)
      && (r.Some? ==> IsLatestRevision(vintages, r.value, t)
                      && forall u :: u in vintages && u.published <= t ==> u.periodEnd <= r.value.periodEnd)
  {
    VisibleAtExact(vintages, t);
    var visible := VisibleAt(NewSeries(vintages), t);
    hide VisibleAt, NewSeries, IsLatestRevision, LatestForPeriod;
    if visible != [] {
      var last := visible[|visible| - 1];
      assert last in visible;
      LatestIsPublished(vintages, last, t);
      forall u | u in vintages && u.published <= t ensures u.periodEnd <= last.periodEnd {
        var v :| v in visible && v.periodEnd == u.periodEnd;
        var i :| 0 <= i < |visible| && visible[i] == v;
      }
    }
  }

  /** As time passes the period answered for never goes back, and an answer once there is
      never lost. */
  lemma AsOfNeverGoesBack(vintages: seq<Vintage>, t: Instant, later: Instant)
    requires t <= later && AsOf(NewSeries(vintages), t).Some?
    ensures AsOf(NewSeries(vintages), later).Some?
    ensures AsOf(NewSeries(vintages), t).value.periodEnd <= AsOf(NewSeries(vintages), later).value.periodEnd
  {
    AsOfIsNewestPeriod(vintages, t);
    AsOfIsNewestPeriod(vintages, later);
  }
}

/** Company fundamentals as they stood at an instant (src/data/edgar.py). */
module Edgar {
  import opened Options
  import opened Sorting
  import opened PointInTime

  /** One fact as filed; instants in days, any part may be missing. */
  datatype Entry = Entry(end: Option<Instant>, filed: Option<Instant>, val: Option<real>)

  /** The entries of each tag, in the order of the document. */
  type Facts = map<string, seq<Entry>>

  const PUBLICATION_LAG := 1

  function EntriesOf(facts: Facts, tag: string): seq<Entry> {
    if tag in facts then facts[tag] else []
  }

  predicate Complete(e: Entry) {
    e.end.Some? && e.filed.Some? && e.val.Some?
  }

  /** Entries without an end, a filing date or a value are skipped; one filed before its
      period ended raises. */
  function Vintages(entries: seq<Entry>, lag: nat): Result<seq<Vintage>, PointInTimeError> {
    if entries == [] then Success([])
    else
      match Vintages(entries[..|entries| - 1], lag)
      case Failure(e) => Failure(e)
      case Success(before) =>
        var last := entries[|entries| - 1];
        if !Complete(last) then Success(before)
        else
          match NewVintage(last.end.value, last.filed.value + lag, last.val.value)
          case Failure(e) => Failure(e)
          case Success(v) => Success(before + [v])
  }

  method ConceptSeries(entries: seq<Entry>, lag: nat) returns (r: Result<seq<Vintage>, PointInTimeError>)
    ensures r == match Vintages(entries, lag) case Failure(e) => Failure(e) case Success(vs) => Success(NewSeries(vs))
  {
    var vintages: seq<Vintage> := [];
    assert entries[..0] == [];
    for i := 0 to |entries|
      invariant Vintages(entries[..i], lag) == Success(vintages)
    {
      assert entries[..i + 1][..i] == entries[..i];
      if Complete(entries[i]) {
        var v := NewVintage(entries[i].end.value, entries[i].filed.value + lag, entries[i].val.value);
        if v.Failure? {
          MalformedStays(entries, i + 1, lag);
          return Failure(v.error);
        }
        vintages := vintages + [v.value];
      }
    }
    assert entries[..|entries|] == entries;
    r := Success(NewSeries(vintages));
  }

  lemma {:induction false} MalformedStays(entries: seq<Entry>, n: nat, lag: nat)
    requires n <= |entries| && Vintages(entries[..n], lag).Failure?
    ensures Vintages(entries, lag) == Vintages(entries[..n], lag)
    decreases |entries| - n
  {
    if n == |entries| {
      assert entries[..n] == entries;
    } else {
      assert entries[..n + 1][..n] == entries[..n];
      MalformedStays(entries, n + 1, lag);
    }
  }

  /** The first tag of a field with anything visible answers for it. */
  function Resolve(facts: Facts, tags: seq<string>, t: Instant, lag: nat): Result<Option<Vintage>, PointInTimeError> {
    if tags == [] then Success(None)
    else
      match Vintages(EntriesOf(facts, tags[0]), lag)
      case Failure(e) => Failure(e)
      case Success(vs) =>
        if AsOf(NewSeries(vs), t).Some? then Success(AsOf(NewSeries(vs), t)) else Resolve(facts, tags[1..], t, lag)
  }

  datatype Fundamentals = Fundamentals(values: map<string, Option<real>>, periodEnd: Option<Instant>)

  function Newer(latest: Option<Instant>, v: Vintage): Option<Instant> {
    if latest.None? || v.periodEnd > latest.value then Some(v.periodEnd) else latest
  }

  /** Each field resolved on its own, the newest period among them remembered. */
  function Snapshot(facts: Facts, concepts: seq<(string, seq<string>)>, t: Instant, lag: nat): Result<Fundamentals, PointInTimeError> {
    if concepts == [] then Success(Fundamentals(map[], None))
    else
      match Snapshot(facts, concepts[..|concepts| - 1], t, lag)
      case Failure(e) => Failure(e)
      case Success(before) =>
        var (field, tags) := concepts[|concepts| - 1];
        match Resolve(facts, tags, t, lag)
        case Failure(e) => Failure(e)
        case Success(None) => Success(before.(values := before.values[field := None]))
        case Success(Some(v)) => Success(Fundamentals(before.values[field := Some(v.value)], Newer(before.periodEnd, v)))
  }

  /** None when nothing at all was visible. */
  function GetFundamentals(facts: Facts, concepts: seq<(string, seq<string>)>, t: Instant, lag: nat): Result<Option<Fundamentals>, PointInTimeError> {
    match Snapshot(facts, concepts, t, lag)
    case Failure(e) => Failure(e)
    case Success(f) => if forall field :: field in f.values ==> f.values[field].None? then Success(None) else Success(Some(f))
  }

  method CollectFundamentals(facts: Facts, concepts: seq<(string, seq<string>)>, t: Instant, lag: nat)
    returns (r: Result<Option<Fundamentals>, PointInTimeError>)
    ensures r == GetFundamentals(facts, concepts, t, lag)
  {
    var values: map<string, Option<real>> := map[];
    var latest: Option<Instant> := None;
    assert concepts[..0] == [];
    for i := 0 to |concepts|
      invariant Snapshot(facts, concepts[..i], t, lag) == Success(Fundamentals(values, latest))
    {
      assert concepts[..i + 1][..i] == concepts[..i];
      var (field, tags) := concepts[i];
      var resolved := ResolveField(facts, tags, t, lag);
      match resolved {
        case Failure(e) =>
          SnapshotFails(facts, concepts, i + 1, t, lag);
          return Failure(e);
        case Success(None) =>
          values := values[field := None];
        case Success(Some(v)) =>
          values := values[field := Some(v.value)];
          latest := Newer(latest, v);
      }
    }
    assert concepts[..|concepts|] == concepts;
    var f := Fundamentals(values, latest);
    r := if forall field :: field in f.values ==> f.values[field].None? then Success(None) else Success(Some(f));
  }

  method ResolveField(facts: Facts, tags: seq<string>, t: Instant, lag: nat) returns (r: Result<Option<Vintage>, PointInTimeError>)
    ensures r == Resolve(facts, tags, t, lag)
  {
    var i := 0;
    while i < |tags|
      invariant 0 <= i <= |tags|
      invariant Resolve(facts, tags, t, lag) == Resolve(facts, tags[i..], t, lag)
    {
      var built := ConceptSeries(EntriesOf(facts, tags[i]), lag);
      assert tags[i..][1..] == tags[i + 1..];
      if built.Failure? {
        return Failure(built.error);
      }
      var vintage := AsOf(built.value, t);
      if vintage.Some? {
        return Success(vintage);
      }
      i := i + 1;
    }
    r := Success(None);
  }

  lemma {:induction false} SnapshotFails(facts: Facts, concepts: seq<(string, seq<string>)>, n: nat, t: Instant, lag: nat)
    requires n <= |concepts| && Snapshot(facts, concepts[..n], t, lag).Failure?
    ensures Snapshot(facts, concepts, t, lag) == Snapshot(facts, concepts[..n], t, lag)
    decreases |concepts| - n
  {
    if n == |concepts| {
      assert concepts[..n] == concepts;
    } else {
      assert concepts[..n + 1][..n] == concepts[..n];
      SnapshotFails(facts, concepts, n + 1, t, lag);
    }
  }

  // ----- the future does not leak through a filing either

  function KnownBy(t: Instant, lag: nat): Entry -> bool {
    (e: Entry) => Complete(e) && e.filed.value + lag <= t
  }

  function VintageOf(e: Entry, lag: nat): Vintage
    requires Complete(e)
  {
    Vintage(e.end.value, e.filed.value + lag, e.val.value)
  }

  lemma VintagesSnoc(entries: seq<Entry>, last: Entry, lag: nat)
    requires Vintages(entries, lag).Success? && (Complete(last) ==> last.end.value <= last.filed.value + lag)
    ensures var before := Vintages(entries, lag).value;
      Vintages(entries + [last], lag) == Success(if Complete(last) then before + [VintageOf(last, lag)] else before)
  {
    assert (entries + [last])[..|entries|] == entries;
  }

  lemma VintagesSplit(entries: seq<Entry>, lag: nat)
    requires entries != [] && Vintages(entries, lag).Success?
    ensures var front, last := entries[..|entries| - 1], entries[|entries| - 1];
      && Vintages(front, lag).Success?
      && (Complete(last) ==> last.end.value <= last.filed.value + lag)
  {
  }

  lemma {:induction false} VisibleVintages(entries: seq<Entry>, t: Instant, lag: nat)
    requires Vintages(entries, lag).Success?
    ensures Vintages(Filter(KnownBy(t, lag), entries), lag) == Success(Filter(VisibleBy(t), Vintages(entries, lag).value))
  {
    if entries != [] {
      hide Vintages, Filter, Complete;
      var front, last := entries[..|entries| - 1], entries[|entries| - 1];
      VintagesSplit(entries, lag);
      VisibleVintages(front, t, lag);
      var known, before := Filter(KnownBy(t, lag), front), Vintages(front, lag).value;
      VintagesSnoc(front, last, lag);
      VintagesSnoc(known, last, lag);
      assert entries == front + [last];
      FilterSnoc(KnownBy(t, lag), front, last);
      if Complete(last) {
        FilterSnoc(VisibleBy(t), before, VintageOf(last, lag));
      }
    }
  }

  /** A tag whose complete facts were all filed, lag included, no earlier than their periods
      ended; exactly these build a series (WellFormedExactly). */
  predicate WellFormed(facts: Facts, tag: string, lag: nat) {
    forall e :: e in EntriesOf(facts, tag) && Complete(e) ==> e.end.value <= e.filed.value + lag
  }

  ghost predicate SameUpTo(f: Facts, g: Facts, t: Instant, lag: nat) {
    forall tag :: Filter(KnownBy(t, lag), EntriesOf(f, tag)) == Filter(KnownBy(t, lag), EntriesOf(g, tag))
  }

  /** The tags of a field that are read: down to the first with anything visible, or with a
      malformed fact. */
  function TagsRead(facts: Facts, tags: seq<string>, t: Instant, lag: nat): seq<string> {
    if tags == [] then []
    else
      var built := Vintages(EntriesOf(facts, tags[0]), lag);
      [tags[0]] + if built.Success? && AsOf(NewSeries(built.value), t).None? then TagsRead(facts, tags[1..], t, lag) else []
  }

  ghost predicate AllWellFormed(facts: Facts, tags: seq<string>, lag: nat) {
    forall tag :: tag in tags ==> WellFormed(facts, tag, lag)
  }

  lemma SameAnswer(f: Facts, g: Facts, tag: string, t: Instant, lag: nat)
    requires SameUpTo(f, g, t, lag)
    requires Vintages(EntriesOf(f, tag), lag).Success? && Vintages(EntriesOf(g, tag), lag).Success?
    ensures AsOf(NewSeries(Vintages(EntriesOf(f, tag), lag).value), t) == AsOf(NewSeries(Vintages(EntriesOf(g, tag), lag).value), t)
  {
    hide AsOf, NewSeries, Vintages, EntriesOf;
    var xs, ys := EntriesOf(f, tag), EntriesOf(g, tag);
    VisibleVintages(xs, t, lag);
    VisibleVintages(ys, t, lag);
    FutureDoesNotLeak(Vintages(xs, lag).value, Vintages(ys, lag).value, t);
  }

  lemma TagBuilds(facts: Facts, tag: string, lag: nat)
    ensures Vintages(EntriesOf(facts, tag), lag).Success? <==> WellFormed(facts, tag, lag)
  {
    hide Vintages;
    WellFormedExactly(EntriesOf(facts, tag), lag);
  }

  /** What reading the tags of one field of `f` comes to in `g`. */
  lemma {:induction false} ResolveExactly(f: Facts, g: Facts, tags: seq<string>, t: Instant, lag: nat)
    requires SameUpTo(f, g, t, lag) && AllWellFormed(f, TagsRead(f, tags, t, lag), lag)
    ensures Resolve(f, tags, t, lag).Success?
    ensures Resolve(g, tags, t, lag) == Resolve(f, tags, t, lag) <==> AllWellFormed(g, TagsRead(f, tags, t, lag), lag)
    ensures Resolve(g, tags, t, lag).Failure? <==> !AllWellFormed(g, TagsRead(f, tags, t, lag), lag)
  {
    hide AsOf, NewSeries, Vintages, EntriesOf, SameUpTo, WellFormed;
    if tags != [] {
      var read, rest := TagsRead(f, tags, t, lag), TagsRead(f, tags[1..], t, lag);
      assert tags[0] in read;
      TagBuilds(f, tags[0], lag);
      TagBuilds(g, tags[0], lag);
      if AsOf(NewSeries(Vintages(EntriesOf(f, tags[0]), lag).value), t).None? {
        assert read == [tags[0]] + rest;
        assert forall tag :: tag in read <==> tag == tags[0] || tag in rest;
        ResolveExactly(f, g, tags[1..], t, lag);
      } else {
        assert read == [tags[0]];
      }
      if WellFormed(g, tags[0], lag) { SameAnswer(f, g, tags[0], t, lag); }
    }
  }

  ghost predicate AllRead(f: Facts, g: Facts, concepts: seq<(string, seq<string>)>, t: Instant, lag: nat) {
    forall c :: c in concepts ==> AllWellFormed(g, TagsRead(f, c.1, t, lag), lag)
  }

  lemma {:induction false} SnapshotExactly(f: Facts, g: Facts, concepts: seq<(string, seq<string>)>, t: Instant, lag: nat)
    requires SameUpTo(f, g, t, lag) && AllRead(f, f, concepts, t, lag)
    ensures Snapshot(f, concepts, t, lag).Success?
    ensures Snapshot(g, concepts, t, lag) == Snapshot(f, concepts, t, lag) <==> AllRead(f, g, concepts, t, lag)
    ensures Snapshot(g, concepts, t, lag).Failure? <==> !AllRead(f, g, concepts, t, lag)
  {
    hide SameUpTo, Resolve, AllWellFormed, TagsRead;
    if concepts != [] {
      var front, c := concepts[..|concepts| - 1], concepts[|concepts| - 1];
      assert forall k :: k in concepts <==> k in front || k == c by { assert concepts == front + [c]; }
      SnapshotExactly(f, g, front, t, lag);
      ResolveExactly(f, g, c.1, t, lag);
    }
  }

  /** Fundamentals at an instant depend only on what had been filed, plus the lag, by then.
      Take facts whose own answer reads nothing malformed. Any others that differ from them
      only in later filings, restatements and whole new tags answer the same if and only
      if they are well formed in every tag that answer reads, and otherwise raise; they
      never answer anything else. Tags not read may hold anything. */
  lemma FundamentalsIgnoreTheFuture(f: Facts, g: Facts, concepts: seq<(string, seq<string>)>, t: Instant, lag: nat)
    requires SameUpTo(f, g, t, lag) && AllRead(f, f, concepts, t, lag)
    ensures GetFundamentals(g, concepts, t, lag) == GetFundamentals(f, concepts, t, lag) <==> AllRead(f, g, concepts, t, lag)
    ensures GetFundamentals(g, concepts, t, lag).Failure? <==> !AllRead(f, g, concepts, t, lag)
  {
    hide AllRead, Snapshot, SameUpTo;
    SnapshotExactly(f, g, concepts, t, lag);
  }

  lemma {:induction false} WellFormedExactly(entries: seq<Entry>, lag: nat)
    ensures Vintages(entries, lag).Success? <==> forall e :: e in entries && Complete(e) ==> e.end.value <= e.filed.value + lag
  {
    if entries != [] {
      var front, last := entries[..|entries| - 1], entries[|entries| - 1];
      WellFormedExactly(front, lag);
      assert forall e :: e in entries <==> e in front || e == last by { assert entries == front + [last]; }
    }
  }

  lemma SnapshotOne(facts: Facts, field: string, tags: seq<string>, t: Instant, lag: nat)
    ensures GetFundamentals(facts, [(field, tags)], t, lag).Success? <==> Resolve(facts, tags, t, lag).Success?
  {
    hide Resolve;
    var concepts := [(field, tags)];
    assert concepts[..0] == [];
    assert Snapshot(facts, [], t, lag).Success?;
    assert Snapshot(facts, concepts, t, lag).Success? <==> Resolve(facts, tags, t, lag).Success?;
  }

  const KNOWN := Entry(Some(90), Some(95), Some(1.0))
  const FUTURE := Entry(Some(199), Some(150), Some(2.0))

  /** The condition is needed: one malformed fact from the future makes an answer for day
      100 raise. */
  lemma MalformedFutureLeaks()
    ensures var good: Facts, bad: Facts := map["Assets" := [KNOWN]], map["Assets" := [KNOWN, FUTURE]];
      var concepts := [("total_assets", ["Assets"])];
      && SameUpTo(good, bad, 100, PUBLICATION_LAG)
      && GetFundamentals(good, concepts, 100, PUBLICATION_LAG).Success?
      && GetFundamentals(bad, concepts, 100, PUBLICATION_LAG).Failure?
  {
    var good: Facts, bad: Facts := map["Assets" := [KNOWN]], map["Assets" := [KNOWN, FUTURE]];
    assert SameUpTo(good, bad, 100, PUBLICATION_LAG) by { FutureFactUnknown(); }
    hide SameUpTo;
    WellFormedExactly([KNOWN], PUBLICATION_LAG);
    WellFormedExactly([KNOWN, FUTURE], PUBLICATION_LAG);
    assert FUTURE in [KNOWN, FUTURE];
    SnapshotOne(good, "total_assets", ["Assets"], 100, PUBLICATION_LAG);
    SnapshotOne(bad, "total_assets", ["Assets"], 100, PUBLICATION_LAG);
    hide GetFundamentals;
    assert ["Assets"][1..] == [];
    assert Resolve(good, [], 100, PUBLICATION_LAG).Success?;
  }

  lemma FutureFactUnknown()
    ensures Filter(KnownBy(100, PUBLICATION_LAG), [KNOWN, FUTURE]) == Filter(KnownBy(100, PUBLICATION_LAG), [KNOWN])
  {
    var keep := KnownBy(100, PUBLICATION_LAG);
    FilterConcat(keep, [KNOWN], [FUTURE]);
    assert [KNOWN, FUTURE] == [KNOWN] + [FUTURE];
    FilterNone(keep, [FUTURE]);
  }
}
