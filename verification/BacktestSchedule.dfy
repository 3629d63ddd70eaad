/** When a run marks its book, what it knows then, and when it decides: read off the events
    alone. */
module BacktestSchedule {
  import opened Options
  import opened RiskEngine
  import opened Execution
  import opened ExecutionTheorems
  import opened MarketData
  import opened Backtest
  import opened BacktestCausality
  import opened BacktestMarks
  import opened Drawdowns

  // ----- what the events say

  /** The last close printed for a name. */
  function LastClose(events: seq<MarketEvent>, s: string): Option<real> {
    if events == [] then None
    else
      var e := events[|events| - 1];
      if e.symbol == s && e.payload.Bar? then Some(e.payload.close) else LastClose(events[..|events| - 1], s)
  }

  /** Its adjusted closes, oldest first; the close itself where none, or zero, is given. */
  function Closes(events: seq<MarketEvent>, s: string): seq<real> {
    if events == [] then []
    else
      var e := events[|events| - 1];
      Closes(events[..|events| - 1], s)
      + (if e.symbol != s || e.payload.NotABar? then []
         else if e.payload.adjClose == None || e.payload.adjClose == Some(0.0) then [e.payload.close] else [e.payload.adjClose.value])
  }

  /** The state has been told these events and nothing else. */
  ghost predicate Knows(st: State, events: seq<MarketEvent>, config: BacktestConfig) {
    && (forall s :: s in config.symbols <==> s in st.history)
    && (forall s :: s in config.symbols ==> st.history[s] == Closes(events, s))
    && (forall s :: LastClose(events, s) == if s in st.prices then Some(st.prices[s]) else None)
  }

  lemma {:induction false} ApplyKnows(st: State, before: seq<MarketEvent>, told: seq<MarketEvent>, config: BacktestConfig)
    requires Knows(st, before, config)
    ensures Knows(ApplyAll(st, told), before + told, config)
  {
    if told == [] {
      assert before + told == before;
    } else {
      var front, e := told[..|told| - 1], told[|told| - 1];
      ApplyKnows(st, before, front, config);
      assert (before + told)[..|before + told| - 1] == before + front;
      hide Knows, Closes, LastClose;
      EventKnown(ApplyAll(st, front), before + front, e, config);
      assert before + told == (before + front) + [e];
    }
  }

  lemma EventKnown(st: State, before: seq<MarketEvent>, e: MarketEvent, config: BacktestConfig)
    requires Knows(st, before, config)
    ensures Knows(ApplyEvent(st, e), before + [e], config)
  {
    assert (before + [e])[..|before|] == before;
  }

  /** Everything printed, for each name of the run, at least once. */
  predicate Printed(events: seq<MarketEvent>, config: BacktestConfig) {
    forall s :: s in config.symbols ==> Closes(events, s) != []
  }

  lemma PrintedIsKnown(st: State, events: seq<MarketEvent>, config: BacktestConfig)
    requires Knows(st, events, config)
    ensures AllPrinted(st, config) <==> Printed(events, config)
    ensures Ready(st, config) <==> Enough(events, config)
  {
    hide Closes, LastClose;
    forall s | s in config.symbols ensures Depth(st, s) == |Closes(events, s)| {}
  }

  /** More observations than the estimation window, for each name of the run. */
  predicate Enough(events: seq<MarketEvent>, config: BacktestConfig) {
    forall s :: s in config.symbols ==> |Closes(events, s)| > config.estimationWindow
  }

  // ----- where the marks fall

  /** The events up to `n` are all those of their instants. */
  predicate Boundary(events: seq<MarketEvent>, n: nat)
    requires n <= |events|
  {
    0 < n && (n < |events| ==> events[n].timestamp != events[n - 1].timestamp)
  }

  /** The book is marked at the end of every instant by which every name has printed. */
  function CutsUpTo(events: seq<MarketEvent>, n: nat, config: BacktestConfig): (cuts: seq<nat>)
    requires n <= |events|
  {
    if n == 0 then []
    else CutsUpTo(events, n - 1, config) + (if Boundary(events, n) && Printed(events[..n], config) then [n] else [])
  }

  function MarkCuts(events: seq<MarketEvent>, config: BacktestConfig): seq<nat> {
    CutsUpTo(events, |events|, config)
  }

  lemma {:induction false} CutsExactly(events: seq<MarketEvent>, n: nat, config: BacktestConfig)
    requires n <= |events|
    ensures var cuts := CutsUpTo(events, n, config);
      && (forall c: nat :: c in cuts <==> c <= n && Boundary(events, c) && Printed(events[..c], config))
      && (forall i, j :: 0 <= i < j < |cuts| ==> cuts[i] < cuts[j])
  {
    hide Printed;
    if n > 0 {
      CutsExactly(events, n - 1, config);
      var before := CutsUpTo(events, n - 1, config);
      forall i | 0 <= i < |before| ensures before[i] < n { assert before[i] in before; }
    }
  }

  /** Cuts of a beginning are those of the whole, as far as they go. */
  lemma {:induction false} CutsOfFront(events: seq<MarketEvent>, m: nat, n: nat, config: BacktestConfig)
    requires m < n <= |events|
    ensures CutsUpTo(events[..n], m, config) == CutsUpTo(events, m, config)
  {
    hide Printed;
    if m > 0 {
      assert events[..n][..m] == events[..m];
      CutsOfFront(events, m - 1, n, config);
    }
  }

  lemma {:induction false} NoCutWithin(events: seq<MarketEvent>, m: nat, n: nat, config: BacktestConfig)
    requires m <= n < |events| && forall i :: m < i <= n ==> events[i].timestamp == events[i - 1].timestamp
    ensures CutsUpTo(events, n, config) == CutsUpTo(events, m, config)
  {
    hide Printed;
    if m < n {
      NoCutWithin(events, m, n - 1, config);
      assert events[n].timestamp == events[n - 1].timestamp;
    }
  }

  /** Each mark knows the events up to its cut, and stands at their last instant. */
  ghost predicate MarksMatch(marks: seq<State>, cuts: seq<nat>, events: seq<MarketEvent>, config: BacktestConfig) {
    |marks| == |cuts| && forall i :: 0 <= i < |marks| ==> MarkMatches(marks[i], cuts[i], events, config)
  }

  ghost predicate MarkMatches(m: State, cut: nat, events: seq<MarketEvent>, config: BacktestConfig) {
    && 0 < cut <= |events| && Knows(m, events[..cut], config)
    && m.timestamps != [] && m.timestamps[|m.timestamps| - 1] == events[cut - 1].timestamp
  }

  lemma MatchInMore(marks: seq<State>, cuts: seq<nat>, events: seq<MarketEvent>, more: seq<MarketEvent>, config: BacktestConfig)
    requires MarksMatch(marks, cuts, events, config) && events <= more
    ensures MarksMatch(marks, cuts, more, config)
  {
    hide Knows;
    forall i | 0 <= i < |marks| ensures MarkMatches(marks[i], cuts[i], more, config) {
      assert MarkMatches(marks[i], cuts[i], events, config);
      assert more[..cuts[i]] == events[..cuts[i]];
    }
  }

  lemma FlushKnows(st: State, stamp: int, told: seq<MarketEvent>, pending: seq<MarketEvent>, config: BacktestConfig, env: Environment)
    requires Knows(st, told, config) && Flush(st, stamp, pending, config, env).Success?
    ensures Knows(Flush(st, stamp, pending, config, env).value, told + pending, config)
    ensures var m := MarkOf(st, stamp, pending, config);
      && (m.Some? <==> Printed(told + pending, config))
      && (m.Some? ==> Knows(m.value, told + pending, config) && m.value.timestamps == st.timestamps + [stamp])
  {
    hide Closes, LastClose, ApplyAll, TotalValue, Fall, BenchmarkPoint, Rebalance, Rebuilt, AllPrinted, Printed, Ready;
    ApplyAllKeeps(st.(now := stamp), pending);
    SameKnowledge(st, st.(now := stamp), told, config);
    ApplyKnows(st.(now := stamp), told, pending, config);
    var after := ApplyAll(st.(now := stamp), pending);
    PrintedIsKnown(after, told + pending, config);
    var m, r := MarkOf(st, stamp, pending, config), Flush(st, stamp, pending, config, env);
    if m.Some? { SameKnowledge(after, m.value, told + pending, config); }
    SameKnowledge(after, r.value, told + pending, config);
  }

  lemma SameKnowledge(a: State, b: State, events: seq<MarketEvent>, config: BacktestConfig)
    requires Knows(a, events, config) && b.history == a.history && b.prices == a.prices
    ensures Knows(b, events, config)
  {
    hide Closes, LastClose;
  }

  /** Where the loop stands: it has been told everything but the events of the last instant,
      which it holds. */
  ghost predicate Standing(loop: Loop, marks: seq<State>, events: seq<MarketEvent>, config: BacktestConfig) {
    && |loop.pending| <= |events| && (events != [] ==> loop.pending != [])
    && var k := |events| - |loop.pending|;
    && loop.pending == events[k..]
    && (events != [] ==> loop.stamp == Some(events[|events| - 1].timestamp))
    && (events == [] ==> loop.stamp == None)
    && (forall i :: k < i < |events| ==> events[i].timestamp == events[i - 1].timestamp)
    && Knows(loop.state, events[..k], config)
    && MarksMatch(marks, CutsUpTo(events, k, config), events, config)
  }

  lemma NothingKnown(config: BacktestConfig, env: Environment)
    ensures Standing(Replay([], config, env).value, [], [], config)
  {
    hide Standing, Initial;
    InitialKnows(config);
    EmptyStands(Initial(config), config);
  }

  lemma EmptyStands(st: State, config: BacktestConfig)
    requires Knows(st, [], config)
    ensures Standing(Loop(st, [], None), [], [], config)
  {
    hide Knows, CutsUpTo;
    NoCuts([], config);
    var none: seq<MarketEvent> := [];
    assert none[0..] == none && none[..0] == none;
  }

  lemma InitialKnows(config: BacktestConfig)
    ensures Knows(Initial(config), [], config)
  {
  }

  lemma {:induction false} ReplayStands(events: seq<MarketEvent>, config: BacktestConfig, env: Environment)
    requires Replay(events, config, env).Success?
    ensures Standing(Replay(events, config, env).value, MarksReplay(events, config, env), events, config)
  {
    hide Flush, Standing, MarkOf;
    if events == [] {
      NothingKnown(config, env);
    } else {
      var front, e := events[..|events| - 1], events[|events| - 1];
      ReplayStands(front, config, env);
      var loop := Replay(front, config, env).value;
      assert events == front + [e];
      if loop.stamp.Some? && e.timestamp != loop.stamp.value {
        StandsAfterFlush(loop, MarksReplay(front, config, env), front, e, config, env);
      } else {
        StandsStill(loop, MarksReplay(front, config, env), front, e, config);
      }
    }
  }

  lemma StandsStill(loop: Loop, marks: seq<State>, front: seq<MarketEvent>, e: MarketEvent, config: BacktestConfig)
    requires Standing(loop, marks, front, config) && (loop.stamp.Some? ==> e.timestamp == loop.stamp.value)
    ensures Standing(Loop(loop.state, loop.pending + [e], Some(e.timestamp)), marks, front + [e], config)
  {
    hide Knows, CutsUpTo, MarksMatch;
    var events, k := front + [e], |front| - |loop.pending|;
    assert events[..k] == front[..k] && events[k..] == front[k..] + [e];
    CutsWithMore(front, e, k, config);
    MatchInMore(marks, CutsUpTo(front, k, config), front, events, config);
    forall i | k < i < |events| ensures events[i].timestamp == events[i - 1].timestamp {
      if i < |front| { assert front[i].timestamp == front[i - 1].timestamp; }
    }
  }

  lemma CutsWithMore(front: seq<MarketEvent>, e: MarketEvent, k: nat, config: BacktestConfig)
    requires k <= |front| && (k == |front| ==> front == [])
    ensures CutsUpTo(front + [e], k, config) == CutsUpTo(front, k, config)
  {
    if k < |front| {
      CutsOfFront(front + [e], k, |front|, config);
      assert (front + [e])[..|front|] == front;
    }
  }

  lemma StandsAfterFlush(loop: Loop, marks: seq<State>, front: seq<MarketEvent>, e: MarketEvent, config: BacktestConfig, env: Environment)
    requires Standing(loop, marks, front, config) && loop.stamp.Some? && e.timestamp != loop.stamp.value
    requires Flush(loop.state, loop.stamp.value, loop.pending, config, env).Success?
    ensures var st := Flush(loop.state, loop.stamp.value, loop.pending, config, env).value;
      Standing(Loop(st, [e], Some(e.timestamp)), AddMark(marks, loop.state, loop.stamp.value, loop.pending, config), front + [e], config)
  {
    hide Knows, MarksMatch, Flush, MarkOf, Printed, CutsUpTo, AddMark;
    var events, k, n := front + [e], |front| - |loop.pending|, |front|;
    assert front[..k] + front[k..] == front && events[..n] == front && events[n..] == [e];
    FlushKnows(loop.state, loop.stamp.value, front[..k], loop.pending, config, env);
    FlushedMarks(loop, marks, front, events, config);
    SameInstants(front, e, k);
    CutAt(events, n, k, config);
    NewStanding(Flush(loop.state, loop.stamp.value, loop.pending, config, env).value,
                AddMark(marks, loop.state, loop.stamp.value, loop.pending, config), front, e, config);
  }

  lemma SameInstants(front: seq<MarketEvent>, e: MarketEvent, k: nat)
    requires forall i :: k < i < |front| ==> front[i].timestamp == front[i - 1].timestamp
    ensures forall i :: k < i < |front| ==> (front + [e])[i].timestamp == (front + [e])[i - 1].timestamp
  {
  }

  lemma NewStanding(st: State, marks: seq<State>, front: seq<MarketEvent>, e: MarketEvent, config: BacktestConfig)
    requires Knows(st, front, config) && MarksMatch(marks, CutsUpTo(front + [e], |front|, config), front + [e], config)
    ensures Standing(Loop(st, [e], Some(e.timestamp)), marks, front + [e], config)
  {
    hide Knows, MarksMatch, CutsUpTo;
    var events := front + [e];
    assert events[..|front|] == front && events[|front|..] == [e];
  }

  lemma CutAt(events: seq<MarketEvent>, n: nat, k: nat, config: BacktestConfig)
    requires k < n < |events| && Boundary(events, n) && forall i :: k < i < n ==> events[i].timestamp == events[i - 1].timestamp
    ensures CutsUpTo(events, n, config) == CutsUpTo(events[..n], k, config) + if Printed(events[..n], config) then [n] else []
  {
    hide Printed;
    NoCutWithin(events, k, n - 1, config);
    CutsOfFront(events, k, n, config);
  }

  /** The flush adds its mark exactly if everything has printed. */
  lemma FlushedMarks(loop: Loop, marks: seq<State>, front: seq<MarketEvent>, events: seq<MarketEvent>, config: BacktestConfig)
    requires Standing(loop, marks, front, config) && loop.stamp.Some? && front <= events
    requires var m := MarkOf(loop.state, loop.stamp.value, loop.pending, config);
      && (m.Some? <==> Printed(front, config))
      && (m.Some? ==> Knows(m.value, front, config) && m.value.timestamps == loop.state.timestamps + [loop.stamp.value])
    ensures MarksMatch(AddMark(marks, loop.state, loop.stamp.value, loop.pending, config),
                       CutsUpTo(front, |front| - |loop.pending|, config) + (if Printed(front, config) then [|front|] else []), events, config)
  {
    hide Knows, MarkOf, Printed, CutsUpTo;
    var cuts := CutsUpTo(front, |front| - |loop.pending|, config);
    MatchInMore(marks, cuts, front, events, config);
    assert events[..|front|] == front;
    if Printed(front, config) {
      var all, allCuts := marks + [MarkOf(loop.state, loop.stamp.value, loop.pending, config).value], cuts + [|front|];
      forall i | 0 <= i < |all| ensures MarkMatches(all[i], allCuts[i], events, config) {
        if i < |marks| { assert MarkMatches(marks[i], cuts[i], events, config); }
      }
    }
  }

  /** The marks of a run, exactly: one at the end of each instant by which every name has
      printed, told the events up to there and no others. */
  lemma RunMarksExactly(events: seq<MarketEvent>, config: BacktestConfig, env: Environment)
    requires Played(events, config, env).Success?
    ensures MarksMatch(MarksPlayed(events, config, env), MarkCuts(events, config), events, config)
    ensures forall c: nat :: c in MarkCuts(events, config) <==> c <= |events| && Boundary(events, c) && Printed(events[..c], config)
  {
    hide Flush, Knows, MarkOf, Printed, MarksMatch, CutsUpTo;
    CutsExactly(events, |events|, config);
    ReplayStands(events, config, env);
    var loop, marks := Replay(events, config, env).value, MarksReplay(events, config, env);
    if events == [] {
      assert CutsUpTo(events, 0, config) == [] by { NoCuts(events, config); }
    } else {
      var k := |events| - |loop.pending|;
      assert events[..k] + events[k..] == events;
      FlushKnows(loop.state, loop.stamp.value, events[..k], loop.pending, config, env);
      FlushedMarks(loop, marks, events, events, config);
      LastCut(events, k, config);
    }
  }

  lemma NoCuts(events: seq<MarketEvent>, config: BacktestConfig)
    ensures CutsUpTo(events, 0, config) == []
  {
  }

  lemma LastCut(events: seq<MarketEvent>, k: nat, config: BacktestConfig)
    requires k < |events| && forall i :: k < i < |events| ==> events[i].timestamp == events[i - 1].timestamp
    ensures MarkCuts(events, config) == CutsUpTo(events, k, config) + if Printed(events, config) then [|events|] else []
  {
    hide Printed;
    NoCutWithin(events, k, |events| - 1, config);
    assert events[..|events|] == events;
  }

  // ----- when a cycle runs

  /** The first cycle waits for enough observations; the count of marks starts so far back
      that only an enormous interval would keep it waiting longer. */
  ghost predicate Eligible(events: seq<MarketEvent>, cut: nat, i: nat, config: BacktestConfig)
    requires cut <= |events|
  {
    Enough(events[..cut], config) && config.rebalanceEvery <= i + 1000000001
  }

  function Interval(config: BacktestConfig): (n: nat)
    ensures n == 1 || n == config.rebalanceEvery
  {
    if config.rebalanceEvery < 1 then 1 else config.rebalanceEvery
  }

  ghost predicate EligibleMark(m: State, i: nat, config: BacktestConfig) {
    Ready(m, config) && config.rebalanceEvery <= i + 1000000001
  }

  /** Cycles run at the marks `at`: from the first eligible one on, every interval. */
  ghost predicate Spaced(at: seq<nat>, marks: seq<State>, config: BacktestConfig) {
    && (forall k :: 0 <= k < |at| ==> at[k] < |marks|)
    && (forall k :: 0 <= k < |at| - 1 ==> at[k + 1] == at[k] + Interval(config))
    && (at == [] ==> forall i :: 0 <= i < |marks| ==> !EligibleMark(marks[i], i, config))
    && (at != [] ==>
          && EligibleMark(marks[at[0]], at[0], config) && (forall i :: 0 <= i < at[0] ==> !EligibleMark(marks[i], i, config))
          && |marks| <= at[|at| - 1] + Interval(config))
  }

  /** The account after these cycles: that of the last report there was. */
  function AccountAfter(cycles: seq<CycleRecord>, config: BacktestConfig): Account {
    if cycles == [] then Account(config.initialCash, map[])
    else
      match cycles[|cycles| - 1].report
      case None => AccountAfter(cycles[..|cycles| - 1], config)
      case Some(report) => Rebuilt(report)
  }

  /** Each cycle was decided at its mark, on the account the cycles before it left. */
  ghost predicate CyclesAt(cycles: seq<CycleRecord>, at: seq<nat>, marks: seq<State>, config: BacktestConfig, env: Environment) {
    |cycles| == |at| && forall k :: 0 <= k < |at| ==>
      && at[k] < |marks| && DecidedAt(marks[at[k]], cycles[k], config, env)
      && Ready(marks[at[k]], config) && marks[at[k]].account == AccountAfter(cycles[..k], config)
  }

  ghost predicate Scheduled(st: State, marks: seq<State>, at: seq<nat>, config: BacktestConfig, env: Environment) {
    && |marks| == |st.timestamps| == st.barsSeen && Spaced(at, marks, config)
    && CyclesAt(st.cycles, at, marks, config, env) && st.account == AccountAfter(st.cycles, config)
    && st.lastRebalanceIndex == (if at == [] then -1000000000 else at[|at| - 1] + 1)
    && (at != [] ==> Ready(st, config))
  }

  lemma ReadyStays(st: State, events: seq<MarketEvent>, config: BacktestConfig)
    requires Ready(st, config)
    ensures Ready(ApplyAll(st, events), config)
  {
    forall s | s in config.symbols ensures Depth(ApplyAll(st, events), s) > config.estimationWindow {
      assert Depth(st, s) > config.estimationWindow;
      DepthGrows(st, events, s);
    }
  }

  lemma {:induction false} DepthGrows(st: State, events: seq<MarketEvent>, s: string)
    ensures Depth(st, s) <= Depth(ApplyAll(st, events), s)
  {
    if events != [] { DepthGrows(st, events[..|events| - 1], s); }
  }

  /** A flush that marks the book also decides exactly if enough has been observed and it is
      an interval since the last decision. */
  lemma FlushDecides(st: State, stamp: int, pending: seq<MarketEvent>, config: BacktestConfig, env: Environment)
    requires Flush(st, stamp, pending, config, env).Success?
    ensures var next, m := Flush(st, stamp, pending, config, env).value, MarkOf(st, stamp, pending, config);
      && (m.None? ==>
            && next.cycles == st.cycles && next.timestamps == st.timestamps && next.account == st.account
            && next.barsSeen == st.barsSeen && next.lastRebalanceIndex == st.lastRebalanceIndex)
      && (m.Some? ==>
            && next.timestamps == st.timestamps + [stamp] && next.barsSeen == st.barsSeen + 1
            && (Ready(m.value, config) <==> Ready(next, config))
            && if Ready(next, config) && st.barsSeen + 1 - st.lastRebalanceIndex >= config.rebalanceEvery
               then
                 && |next.cycles| == |st.cycles| + 1 && next.cycles == st.cycles + [next.cycles[|st.cycles|]]
                 && DecidedAt(m.value, next.cycles[|st.cycles|], config, env) && m.value.account == st.account
                 && next.account == (match next.cycles[|st.cycles|].report case None => st.account case Some(report) => Rebuilt(report))
                 && next.lastRebalanceIndex == st.barsSeen + 1
               else next.cycles == st.cycles && next.lastRebalanceIndex == st.lastRebalanceIndex && next.account == st.account)
      && (Ready(st, config) ==> Ready(next, config))
  {
    hide AllPrinted, TotalValue, Fall, BenchmarkPoint, Rebuilt, Rebalance, ApplyAll;
    ApplyAllKeeps(st.(now := stamp), pending);
    if Ready(st, config) {
      SameReady(st, st.(now := stamp), config);
      ReadyStays(st.(now := stamp), pending, config);
    }
    var m, next := MarkOf(st, stamp, pending, config), Flush(st, stamp, pending, config, env).value;
    SameReady(ApplyAll(st.(now := stamp), pending), next, config);
    if m.Some? {
      SameReady(m.value, next, config);
    }
    hide Ready;
  }

  lemma SameReady(a: State, b: State, config: BacktestConfig)
    ensures b.history == a.history ==> (Ready(a, config) <==> Ready(b, config))
  {
    if b.history == a.history { assert forall s :: Depth(a, s) == Depth(b, s); }
  }

  lemma FlushScheduled(st: State, marks: seq<State>, at: seq<nat>, stamp: int, pending: seq<MarketEvent>, config: BacktestConfig, env: Environment)
    returns (more: seq<nat>)
    requires Scheduled(st, marks, at, config, env) && Flush(st, stamp, pending, config, env).Success?
    ensures Scheduled(Flush(st, stamp, pending, config, env).value, AddMark(marks, st, stamp, pending, config), more, config, env)
  {
    hide Flush, MarkOf, Ready, Rebalance, Rebuilt;
    FlushDecides(st, stamp, pending, config, env);
    var m, next := MarkOf(st, stamp, pending, config), Flush(st, stamp, pending, config, env).value;
    more := at;
    if m.Some? {
      var n := |marks|;
      assert Ready(next, config) && st.barsSeen + 1 - st.lastRebalanceIndex >= config.rebalanceEvery
             <==> if at == [] then EligibleMark(m.value, n, config) else n == at[|at| - 1] + Interval(config);
      if |next.cycles| > |st.cycles| { more := at + [n]; }
      SpacedOn(at, more, marks, m.value, config);
      CyclesOn(st.cycles, next.cycles, at, more, marks, m.value, config, env);
      AccountOn(st.cycles, next.cycles, config);
    }
  }

  lemma SpacedOn(at: seq<nat>, more: seq<nat>, marks: seq<State>, m: State, config: BacktestConfig)
    requires Spaced(at, marks, config)
    requires more == at || more == at + [|marks|]
    requires more != at <==> if at == [] then EligibleMark(m, |marks|, config) else |marks| == at[|at| - 1] + Interval(config)
    ensures Spaced(more, marks + [m], config)
  {
    hide Ready;
    var all := marks + [m];
    forall i | 0 <= i < |marks| ensures all[i] == marks[i] {}
  }

  lemma CyclesOn(cycles: seq<CycleRecord>, next: seq<CycleRecord>, at: seq<nat>, more: seq<nat>, marks: seq<State>, m: State,
                 config: BacktestConfig, env: Environment)
    requires CyclesAt(cycles, at, marks, config, env)
    requires if more == at then next == cycles
             else
               && more == at + [|marks|] && |next| == |cycles| + 1 && next == cycles + [next[|cycles|]]
               && DecidedAt(m, next[|cycles|], config, env) && Ready(m, config) && m.account == AccountAfter(cycles, config)
    ensures CyclesAt(next, more, marks + [m], config, env)
  {
    hide DecidedAt, Ready, AccountAfter;
    var all := marks + [m];
    forall k | 0 <= k < |more|
      ensures more[k] < |all| && DecidedAt(all[more[k]], next[k], config, env)
      ensures Ready(all[more[k]], config) && all[more[k]].account == AccountAfter(next[..k], config)
    {
      assert next[..k] == if k < |cycles| then cycles[..k] else cycles;
      if k < |at| { assert more[k] == at[k] && all[more[k]] == marks[at[k]] && next[k] == cycles[k]; }
    }
  }

  lemma AccountOn(cycles: seq<CycleRecord>, next: seq<CycleRecord>, config: BacktestConfig)
    requires next == cycles || (|next| == |cycles| + 1 && next == cycles + [next[|cycles|]])
    ensures next != cycles ==>
              AccountAfter(next, config)
              == match next[|cycles|].report case None => AccountAfter(cycles, config) case Some(report) => Rebuilt(report)
  {
    hide Rebuilt;
    if next != cycles { assert next[..|cycles|] == cycles; }
  }

  lemma {:induction false} ReplayScheduled(events: seq<MarketEvent>, config: BacktestConfig, env: Environment) returns (at: seq<nat>)
    requires Replay(events, config, env).Success?
    ensures Scheduled(Replay(events, config, env).value.state, MarksReplay(events, config, env), at, config, env)
  {
    hide Flush, AddMark, Scheduled;
    if events == [] {
      at := [];
      InitialScheduled(config, env);
    } else {
      var front := events[..|events| - 1];
      at := ReplayScheduled(front, config, env);
      var loop := Replay(front, config, env).value;
      if loop.stamp.Some? && events[|events| - 1].timestamp != loop.stamp.value {
        at := FlushScheduled(loop.state, MarksReplay(front, config, env), at, loop.stamp.value, loop.pending, config, env);
      }
    }
  }

  lemma InitialScheduled(config: BacktestConfig, env: Environment)
    ensures Scheduled(Initial(config), [], [], config, env)
  {
  }

  lemma PlayedScheduled(events: seq<MarketEvent>, config: BacktestConfig, env: Environment) returns (at: seq<nat>)
    requires Played(events, config, env).Success?
    ensures Scheduled(Played(events, config, env).value, MarksPlayed(events, config, env), at, config, env)
  {
    hide Flush, AddMark, Scheduled;
    at := ReplayScheduled(events, config, env);
    var loop := Replay(events, config, env).value;
    if loop.stamp.Some? && loop.pending != [] {
      at := FlushScheduled(loop.state, MarksReplay(events, config, env), at, loop.stamp.value, loop.pending, config, env);
    }
  }

  /** The schedule of a whole run, by the points of its equity curve and the events behind
      each: the first cycle is at the first point by which every name has more observations
      than the estimation window; then there is one every `rebalanceEvery` points, and at
      least one point apart, and none is missed up to the end. */
  lemma RunScheduleExactly(events: seq<MarketEvent>, config: BacktestConfig, env: Environment) returns (at: seq<nat>)
    requires Played(events, config, env).Success?
    ensures var st, cuts := Played(events, config, env).value, MarkCuts(events, config);
      && |cuts| == |st.equity| == |st.timestamps| && |st.cycles| == |at|
      && (forall i :: 0 <= i < |cuts| ==> 0 < cuts[i] <= |events| && st.timestamps[i] == events[cuts[i] - 1].timestamp)
      && (forall k :: 0 <= k < |at| ==> at[k] < |cuts| && st.cycles[k].timestamp == st.timestamps[at[k]])
      && (forall k :: 0 <= k < |at| - 1 ==> at[k + 1] == at[k] + Interval(config))
      && (forall i :: 0 <= i < (if at == [] then |cuts| else at[0]) ==> !Eligible(events, cuts[i], i, config))
      && (at != [] ==> Eligible(events, cuts[at[0]], at[0], config) && |cuts| <= at[|at| - 1] + Interval(config))
  {
    hide Played, MarksPlayed, MarkCuts, Ready, Enough, Knows, DecidedAt, AccountAfter, MarkAt, MarkMatches;
    RunMarksExactly(events, config, env);
    PlayedRecorded(events, config, env);
    at := PlayedScheduled(events, config, env);
    var st, marks, cuts := Played(events, config, env).value, MarksPlayed(events, config, env), MarkCuts(events, config);
    forall i | 0 <= i < |marks|
      ensures 0 < cuts[i] <= |events| && st.timestamps[i] == events[cuts[i] - 1].timestamp
      ensures EligibleMark(marks[i], i, config) <==> Eligible(events, cuts[i], i, config)
      ensures marks[i].timestamps != [] && marks[i].timestamps[|marks[i].timestamps| - 1] == st.timestamps[i]
    {
      assert MarkMatches(marks[i], cuts[i], events, config) && MarkAt(marks[i], i, st);
      MarkStands(marks[i], cuts[i], i, st, events, config);
    }
    forall k | 0 <= k < |at| ensures at[k] < |cuts| && st.cycles[k].timestamp == st.timestamps[at[k]] {
      CycleStamp(marks[at[k]], st.cycles[k], config, env);
    }
  }

  lemma MarkStands(m: State, cut: nat, i: nat, st: State, events: seq<MarketEvent>, config: BacktestConfig)
    requires MarkMatches(m, cut, events, config) && MarkAt(m, i, st)
    ensures 0 < cut <= |events| && i < |st.timestamps| && st.timestamps[i] == events[cut - 1].timestamp
    ensures m.timestamps != [] && m.timestamps[|m.timestamps| - 1] == st.timestamps[i]
    ensures Eligible(events, cut, i, config) <==> EligibleMark(m, i, config)
  {
    hide Knows, Ready, Enough, DrawdownAt, TotalValue;
    PrintedIsKnown(m, events[..cut], config);
  }

  lemma CycleStamp(m: State, record: CycleRecord, config: BacktestConfig, env: Environment)
    requires DecidedAt(m, record, config, env)
    ensures m.timestamps != [] && record.timestamp == m.timestamps[|m.timestamps| - 1]
  {
    CycleSeesItsDrawdown(m, record, config, env);
    hide Asked, Evaluate, Rebalance;
  }

  /** And what it knows at each of those points: the curve is what the account was worth
      there at the last closes. */
  lemma RunKnowsExactly(events: seq<MarketEvent>, config: BacktestConfig, env: Environment, i: nat)
    requires Played(events, config, env).Success? && i < |MarkCuts(events, config)|
    ensures var st, marks, cuts := Played(events, config, env).value, MarksPlayed(events, config, env), MarkCuts(events, config);
      && |marks| == |cuts| == |st.equity| && cuts[i] <= |events|
      && Knows(marks[i], events[..cuts[i]], config)
      && st.equity[i] == TotalValue(marks[i].account, marks[i].prices)
  {
    hide Played, MarksPlayed, MarkCuts, Knows, TotalValue;
    RunMarksExactly(events, config, env);
    PlayedRecorded(events, config, env);
    var st, marks, cuts := Played(events, config, env).value, MarksPlayed(events, config, env), MarkCuts(events, config);
    assert MarkMatches(marks[i], cuts[i], events, config) && MarkAt(marks[i], i, st);
  }
}
