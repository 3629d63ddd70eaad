/** What a snapshot of company fundamentals is (src/data/edgar.py), read off the facts as
    filed. */
module FundamentalsTheorems {
  import opened Options
  import opened Sorting
  import opened PointInTime
  import opened Edgar

  // ----- ties

  function SameRank(v: Vintage): Vintage -> bool {
    (u: Vintage) => u.periodEnd == v.periodEnd && u.published == v.published
  }

  ghost predicate EndsIn<T>(xs: seq<T>, x: T) {
    xs != [] && xs[|xs| - 1] == x
  }

  lemma FilterLast<T(!new)>(wide: T -> bool, narrow: T -> bool, xs: seq<T>, last: T)
    requires EndsIn(Filter(wide, xs), last) && narrow(last)
    requires forall x :: narrow(x) ==> wide(x)
    ensures EndsIn(Filter(narrow, xs), last)
    decreases |xs|
  {
    var front, x := xs[..|xs| - 1], xs[|xs| - 1];
    assert xs == front + [x];
    FilterSnoc(wide, front, x);
    FilterSnoc(narrow, front, x);
    hide Filter;
    if !wide(x) { FilterLast(wide, narrow, front, last); }
  }

  /** Of revisions of one period that came out together, the last one given counts. */
  lemma TiesGoToTheLast(vintages: seq<Vintage>, p: Instant, t: Instant)
    ensures var r := LatestForPeriod(NewSeries(vintages), p, t);
      r.Some? ==> var ties := Filter(SameRank(r.value), vintages); ties != [] && ties[|ties| - 1] == r.value
  {
    var series := NewSeries(vintages);
    var r := LatestForPeriod(series, p, t);
    if r.Some? {
      LatestForPeriodIs(vintages, p, t);
      var keep, same := OfPeriod(p, t), SameRank(r.value);
      FilterLast(keep, same, series, r.value);
      ByPeriodOrders();
      FilterSort(ByPeriod(), same, vintages);
      FilterMembers(same, vintages);
      AllLevel(Filter(same, vintages), r.value);
      SortOfSorted(ByPeriod(), Filter(same, vintages));
    }
  }

  lemma AllLevel(vs: seq<Vintage>, v: Vintage)
    requires forall u :: u in vs ==> SameRank(v)(u)
    ensures Sorted(ByPeriod(), vs)
  {
    forall i, j | 0 <= i < j < |vs| ensures ByPeriod()(vs[i], vs[j]) { assert vs[i] in vs && vs[j] in vs; }
  }

  // ----- one tag

  /** `u` ranks before `v`: an older period, or the same one and published earlier. */
  predicate Older(u: Vintage, v: Vintage) {
    u.periodEnd < v.periodEnd || (u.periodEnd == v.periodEnd && u.published < v.published)
  }

  /** A fact with its period, its filing date and its value, published by `t`. */
  predicate Known(e: Entry, t: Instant, lag: nat) {
    e.end != None && e.filed != None && e.val != None && e.filed.value + lag <= t
  }

  /** The fact at `i` was known by `t` and is the one that counts: of the newest period
      known, of its facts the latest published, of those the last in the document. */
  ghost predicate Counts(entries: seq<Entry>, i: nat, t: Instant, lag: nat) {
    && i < |entries| && Known(entries[i], t, lag)
    && forall j :: 0 <= j < |entries| && Known(entries[j], t, lag) ==>
         var u, v := VintageOf(entries[j], lag), VintageOf(entries[i], lag);
         Older(u, v) || (j <= i && u.periodEnd == v.periodEnd && u.published == v.published)
  }

  ghost predicate NothingKnown(entries: seq<Entry>, t: Instant, lag: nat) {
    forall e :: e in entries ==> !Known(e, t, lag)
  }

  lemma {:induction false} VintagesAre(entries: seq<Entry>, lag: nat, u: Vintage)
    requires Vintages(entries, lag).Success?
    ensures u in Vintages(entries, lag).value <==> exists e :: e in entries && Complete(e) && VintageOf(e, lag) == u
  {
    if entries != [] {
      var front, last := entries[..|entries| - 1], entries[|entries| - 1];
      VintagesAre(front, lag, u);
      assert forall e :: e in entries <==> e in front || e == last by { assert entries == front + [last]; }
    }
  }

  /** The last of the vintages level with `v` is that of the last fact level with it. */
  lemma {:induction false} LastTie(entries: seq<Entry>, lag: nat, v: Vintage) returns (i: nat)
    requires Vintages(entries, lag).Success? && Filter(SameRank(v), Vintages(entries, lag).value) != []
    ensures i < |entries| && Complete(entries[i]) && SameRank(v)(VintageOf(entries[i], lag))
    ensures var ties := Filter(SameRank(v), Vintages(entries, lag).value); VintageOf(entries[i], lag) == ties[|ties| - 1]
    ensures forall j :: i < j < |entries| && Complete(entries[j]) ==> !SameRank(v)(VintageOf(entries[j], lag))
    decreases |entries|
  {
    hide Vintages, Filter, Complete;
    if entries == [] { NoVintages(lag, SameRank(v)); assert false; }
    var n := |entries| - 1;
    var front, last := entries[..n], entries[n];
    assert entries == front + [last];
    VintagesSplit(entries, lag);
    VintagesSnoc(front, last, lag);
    if Complete(last) { FilterSnoc(SameRank(v), Vintages(front, lag).value, VintageOf(last, lag)); }
    if Complete(last) && SameRank(v)(VintageOf(last, lag)) {
      i := n;
    } else {
      i := LastTie(front, lag, v);
    }
  }

  lemma NoVintages(lag: nat, keep: Vintage -> bool)
    ensures Vintages([], lag) == Success([]) && Filter(keep, []) == []
  {
  }

  /** The answer of one tag, exactly. */
  lemma TagExactly(entries: seq<Entry>, t: Instant, lag: nat) returns (i: nat)
    requires Vintages(entries, lag).Success?
    ensures var r := AsOf(NewSeries(Vintages(entries, lag).value), t);
      && (r.None? <==> NothingKnown(entries, t, lag))
      && (r.Some? ==> Counts(entries, i, t, lag) && r.value == VintageOf(entries[i], lag))
  {
    hide AsOf, NewSeries, Vintages, LatestForPeriod;
    var vs := Vintages(entries, lag).value;
    var r := AsOf(NewSeries(vs), t);
    AsOfIsNewestPeriod(vs, t);
    i := 0;
    forall e | e in entries && Complete(e) ensures VintageOf(e, lag) in vs { VintagesAre(entries, lag, VintageOf(e, lag)); }
    if r.None? {
      forall e | e in entries ensures !Known(e, t, lag) {
        if Complete(e) { assert VintageOf(e, lag) in vs; }
      }
    } else {
      VintagesAre(entries, lag, r.value);
      LatestIsPublished(vs, r.value, t);
      var v := r.value;
      AsOfIsLookedUp(vs, t);
      TiesGoToTheLast(vs, v.periodEnd, t);
      i := LastTie(entries, lag, v);
      forall j | 0 <= j < |entries| && Known(entries[j], t, lag)
        ensures var u := VintageOf(entries[j], lag); Older(u, v) || (j <= i && u.periodEnd == v.periodEnd && u.published == v.published)
      {
        assert entries[j] in entries;
        assert VintageOf(entries[j], lag) in vs;
      }
    }
  }

  lemma AsOfIsLookedUp(vintages: seq<Vintage>, t: Instant)
    requires AsOf(NewSeries(vintages), t).Some?
    ensures var v := AsOf(NewSeries(vintages), t).value; LatestForPeriod(NewSeries(vintages), v.periodEnd, t) == Some(v)
  {
    VisibleAtExact(vintages, t);
    hide VisibleAt, NewSeries, LatestForPeriod, IsLatestRevision;
    var visible := VisibleAt(NewSeries(vintages), t);
    assert visible[|visible| - 1] in visible;
  }

  // ----- one field

  /** The first of a field's tags with anything known answers, with the fact that counts; and
      there is no answer when none has. */
  ghost predicate FieldIs(facts: Facts, tags: seq<string>, t: Instant, lag: nat, answer: Option<Vintage>) {
    match answer
    case None => forall k :: 0 <= k < |tags| ==> NothingKnown(EntriesOf(facts, tags[k]), t, lag)
    case Some(v) =>
      exists k: int, i: nat :: AnswersFirst(facts, tags, t, lag, k, i, v)
  }

  ghost predicate AnswersFirst(facts: Facts, tags: seq<string>, t: Instant, lag: nat, k: int, i: nat, v: Vintage) {
    && 0 <= k < |tags| && Counts(EntriesOf(facts, tags[k]), i, t, lag) && v == VintageOf(EntriesOf(facts, tags[k])[i], lag)
    && forall m :: 0 <= m < k ==> NothingKnown(EntriesOf(facts, tags[m]), t, lag)
  }

  lemma {:induction false} ResolveIs(facts: Facts, tags: seq<string>, t: Instant, lag: nat)
    requires Resolve(facts, tags, t, lag).Success?
    ensures FieldIs(facts, tags, t, lag, Resolve(facts, tags, t, lag).value)
  {
    hide AsOf, NewSeries, Vintages, EntriesOf, Counts, NothingKnown;
    if tags != [] {
      var entries := EntriesOf(facts, tags[0]);
      var i := TagExactly(entries, t, lag);
      if AsOf(NewSeries(Vintages(entries, lag).value), t).Some? {
        assert AnswersFirst(facts, tags, t, lag, 0, i, AsOf(NewSeries(Vintages(entries, lag).value), t).value);
      } else {
        ResolveIs(facts, tags[1..], t, lag);
        FieldFurtherOn(facts, tags, t, lag, Resolve(facts, tags[1..], t, lag).value);
      }
    }
  }

  lemma FieldFurtherOn(facts: Facts, tags: seq<string>, t: Instant, lag: nat, answer: Option<Vintage>)
    requires tags != [] && NothingKnown(EntriesOf(facts, tags[0]), t, lag) && FieldIs(facts, tags[1..], t, lag, answer)
    ensures FieldIs(facts, tags, t, lag, answer)
  {
    hide EntriesOf, NothingKnown;
    if answer.Some? {
      var k: int, i: nat :| AnswersFirst(facts, tags[1..], t, lag, k, i, answer.value);
      assert tags[1..][k] == tags[k + 1];
      forall m | 0 <= m < k + 1 ensures NothingKnown(EntriesOf(facts, tags[m]), t, lag) {
        if m > 0 { assert tags[m] == tags[1..][m - 1]; }
      }
      assert AnswersFirst(facts, tags, t, lag, k + 1, i, answer.value);
    } else {
      forall k | 0 <= k < |tags| ensures NothingKnown(EntriesOf(facts, tags[k]), t, lag) {
        if k > 0 { assert tags[k] == tags[1..][k - 1]; }
      }
    }
  }

  // ----- the snapshot

  type Concepts = seq<(string, seq<string>)>

  ghost predicate DistinctFields(concepts: Concepts) {
    forall i, j :: 0 <= i < j < |concepts| ==> concepts[i].0 != concepts[j].0
  }

  /** What each field was resolved to, in the order of the concepts. */
  ghost predicate AnswersAre(facts: Facts, concepts: Concepts, t: Instant, lag: nat, answers: seq<Option<Vintage>>) {
    |answers| == |concepts| && forall c :: 0 <= c < |concepts| ==> FieldIs(facts, concepts[c].1, t, lag, answers[c])
  }

  function ValueOf(answer: Option<Vintage>): Option<real> {
    match answer case None => None case Some(v) => Some(v.value)
  }

  /** The newest period answered for: as new as any and one of them. */
  ghost predicate NewestPeriod(answers: seq<Option<Vintage>>, p: Option<Instant>) {
    && (p == None <==> forall c :: 0 <= c < |answers| ==> answers[c] == None)
    && (p.Some? ==>
          && (forall c :: 0 <= c < |answers| && answers[c].Some? ==> answers[c].value.periodEnd <= p.value)
          && exists c :: 0 <= c < |answers| && answers[c].Some? && answers[c].value.periodEnd == p.value)
  }

  function FieldNames(concepts: Concepts): set<string> {
    set c | c in concepts :: c.0
  }

  ghost predicate ValuesAre(values: map<string, Option<real>>, concepts: Concepts, answers: seq<Option<Vintage>>)
    requires |answers| == |concepts|
  {
    forall c :: 0 <= c < |concepts| ==> concepts[c].0 in values && values[concepts[c].0] == ValueOf(answers[c])
  }

  ghost predicate SnapshotIs(f: Fundamentals, concepts: Concepts, answers: seq<Option<Vintage>>) {
    && |answers| == |concepts|
    && f.values.Keys == FieldNames(concepts)
    && ValuesAre(f.values, concepts, answers)
    && NewestPeriod(answers, f.periodEnd)
  }

  lemma {:induction false} SnapshotExactlyIs(facts: Facts, concepts: Concepts, t: Instant, lag: nat) returns (answers: seq<Option<Vintage>>)
    requires DistinctFields(concepts) && Snapshot(facts, concepts, t, lag).Success?
    ensures AnswersAre(facts, concepts, t, lag, answers) && SnapshotIs(Snapshot(facts, concepts, t, lag).value, concepts, answers)
  {
    hide Resolve, FieldIs, SnapshotIs;
    if concepts == [] {
      answers := [];
      NoConcepts();
    } else {
      var n := |concepts| - 1;
      var front, tags := concepts[..n], concepts[n].1;
      var before := SnapshotExactlyIs(facts, front, t, lag);
      ResolveIs(facts, tags, t, lag);
      var answer := Resolve(facts, tags, t, lag).value;
      answers := before + [answer];
      forall c | 0 <= c < |concepts| ensures FieldIs(facts, concepts[c].1, t, lag, answers[c]) {
        if c < n { assert front[c] == concepts[c] && FieldIs(facts, front[c].1, t, lag, before[c]); }
      }
      SnapshotGrows(Snapshot(facts, front, t, lag).value, Snapshot(facts, concepts, t, lag).value, concepts, before, answer);
    }
  }

  lemma NoConcepts()
    ensures SnapshotIs(Fundamentals(map[], None), [], [])
  {
  }

  lemma SnapshotGrows(before: Fundamentals, after: Fundamentals, concepts: Concepts, answers: seq<Option<Vintage>>, answer: Option<Vintage>)
    requires concepts != [] && DistinctFields(concepts) && SnapshotIs(before, concepts[..|concepts| - 1], answers)
    requires after.values == before.values[concepts[|concepts| - 1].0 := ValueOf(answer)]
    requires after.periodEnd == if answer.None? then before.periodEnd else Newer(before.periodEnd, answer.value)
    ensures SnapshotIs(after, concepts, answers + [answer])
  {
    hide NewestPeriod, Newer, FieldNames, ValueOf, ValuesAre, DistinctFields;
    NewestGrows(answers, answer, before.periodEnd);
    ValuesGrow(before.values, after.values, concepts, answers, answer);
    NamesGrow(concepts);
  }

  lemma NamesGrow(concepts: Concepts)
    requires concepts != []
    ensures FieldNames(concepts) == FieldNames(concepts[..|concepts| - 1]) + {concepts[|concepts| - 1].0}
  {
    assert concepts == concepts[..|concepts| - 1] + [concepts[|concepts| - 1]];
  }

  lemma ValuesGrow(before: map<string, Option<real>>, after: map<string, Option<real>>, concepts: Concepts, answers: seq<Option<Vintage>>, answer: Option<Vintage>)
    requires concepts != [] && DistinctFields(concepts) && |answers| == |concepts| - 1 && ValuesAre(before, concepts[..|concepts| - 1], answers)
    requires after == before[concepts[|concepts| - 1].0 := ValueOf(answer)]
    ensures ValuesAre(after, concepts, answers + [answer])
  {
    hide ValueOf;
    var n, all := |concepts| - 1, answers + [answer];
    var front := concepts[..n];
    forall c | 0 <= c < |concepts| ensures concepts[c].0 in after && after[concepts[c].0] == ValueOf(all[c]) {
      if c < n {
        assert front[c] == concepts[c] && concepts[c].0 != concepts[n].0;
        assert all[c] == answers[c];
      }
    }
  }

  lemma NewestGrows(answers: seq<Option<Vintage>>, answer: Option<Vintage>, p: Option<Instant>)
    requires NewestPeriod(answers, p)
    ensures NewestPeriod(answers + [answer], if answer.None? then p else Newer(p, answer.value))
  {
    var all := answers + [answer];
    var q := if answer.None? then p else Newer(p, answer.value);
    assert all[|answers|] == answer;
    if p.Some? {
      var c :| 0 <= c < |answers| && answers[c].Some? && answers[c].value.periodEnd == p.value;
      assert all[c] == answers[c];
    }
    if q == None {
      forall c | 0 <= c < |all| ensures all[c] == None { if c < |answers| { assert all[c] == answers[c]; } }
    }
  }

  /** The answer for a company, exactly: None if and only if no tag of any field has anything
      known; else, for each field, the value of the fact that counts in its first tag with
      one, and the newest of the periods those facts are for. */
  lemma FundamentalsExactly(facts: Facts, concepts: Concepts, t: Instant, lag: nat) returns (answers: seq<Option<Vintage>>)
    requires DistinctFields(concepts) && GetFundamentals(facts, concepts, t, lag).Success?
    ensures var r := GetFundamentals(facts, concepts, t, lag).value;
      && AnswersAre(facts, concepts, t, lag, answers)
      && (r == None <==> forall c :: 0 <= c < |concepts| ==> answers[c] == None)
      && (r.Some? ==> SnapshotIs(r.value, concepts, answers))
  {
    hide FieldIs, NewestPeriod, Snapshot;
    answers := SnapshotExactlyIs(facts, concepts, t, lag);
    var f := Snapshot(facts, concepts, t, lag).value;
    if forall c :: 0 <= c < |concepts| ==> answers[c] == None {
      forall field | field in f.values ensures f.values[field].None? {
        assert field in FieldNames(concepts);
        var k :| k in concepts && k.0 == field;
        var c :| 0 <= c < |concepts| && concepts[c] == k;
      }
    } else {
      var c :| 0 <= c < |concepts| && answers[c] != None;
      assert f.values[concepts[c].0].Some?;
    }
  }

  /** It raises if and only if a tag it reads holds a malformed fact. */
  lemma FundamentalsRaiseExactly(facts: Facts, concepts: Concepts, t: Instant, lag: nat)
    ensures GetFundamentals(facts, concepts, t, lag).Failure? <==> !AllRead(facts, facts, concepts, t, lag)
  {
    hide Resolve, AllWellFormed, TagsRead;
    SnapshotRaises(facts, concepts, t, lag);
  }

  lemma {:induction false} SnapshotRaises(facts: Facts, concepts: Concepts, t: Instant, lag: nat)
    ensures Snapshot(facts, concepts, t, lag).Failure? <==> !AllRead(facts, facts, concepts, t, lag)
  {
    hide Resolve, AllWellFormed, TagsRead;
    if concepts != [] {
      var front, c := concepts[..|concepts| - 1], concepts[|concepts| - 1];
      assert forall k :: k in concepts <==> k in front || k == c by { assert concepts == front + [c]; }
      SnapshotRaises(facts, front, t, lag);
      ResolveRaises(facts, c.1, t, lag);
    }
  }

  lemma {:induction false} ResolveRaises(facts: Facts, tags: seq<string>, t: Instant, lag: nat)
    ensures Resolve(facts, tags, t, lag).Failure? <==> !AllWellFormed(facts, TagsRead(facts, tags, t, lag), lag)
  {
    hide AsOf, NewSeries, Vintages, EntriesOf, WellFormed;
    if tags != [] {
      var read, rest := TagsRead(facts, tags, t, lag), TagsRead(facts, tags[1..], t, lag);
      assert tags[0] in read;
      TagBuilds(facts, tags[0], lag);
      ResolveRaises(facts, tags[1..], t, lag);
      var built := Vintages(EntriesOf(facts, tags[0]), lag);
      if built.Success? && AsOf(NewSeries(built.value), t).None? {
        assert forall tag :: tag in read <==> tag == tags[0] || tag in rest by { assert read == [tags[0]] + rest; }
      } else {
        assert read == [tags[0]];
      }
    }
  }
}
